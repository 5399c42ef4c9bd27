/** The CRUD gateway of features/entries/api/index.ts: it translates between
    rows and entries, builds the request bodies, and sends them to the table.
    The clock (`new Date().toISOString()`) is the `now` parameter. */
module EntryApi {
  import opened Wrappers
  import opened EntryTypes
  import opened Backend

  // ----- row translation

  /** `mapToEntry`: each snake_case column becomes its camelCase field. */
  function MapToEntry(row: Row): Entry {
    Entry(row.id, row.kind, row.content, row.is_done, row.order_rank, row.width, row.height,
          row.deleted_at, row.created_at, row.updated_at)
  }

  /** The reverse renaming, camelCase field to snake_case column. */
  function EntryColumns(e: Entry): Row {
    Row(e.id, e.kind, e.content, e.isDone, e.orderRank, e.width, e.height,
        e.deletedAt, e.createdAt, e.updatedAt)
  }

  /** The translation is a bijection: it renames and changes no value. */
  lemma MapToEntryBijective(row: Row, e: Entry)
    ensures EntryColumns(MapToEntry(row)) == row
    ensures MapToEntry(EntryColumns(e)) == e
    ensures MapToEntry(row) == e <==> row == EntryColumns(e)
  {
  }

  /** `data.map(mapToEntry)`. */
  function MapRows(data: seq<Row>): (es: seq<Entry>)
    ensures |es| == |data|
    ensures forall k | 0 <= k < |data| :: es[k] == MapToEntry(data[k])
  {
    seq(|data|, k requires 0 <= k < |data| => MapToEntry(data[k]))
  }

  // ----- getEntries

  /** What `getEntries` resolves to for a query answer: the mapped rows, or
      the empty list when the query failed. */
  function EntriesFromQuery(answer: Result<seq<Row>, BackendError>): seq<Entry> {
    match answer
    case Err(_) => []
    case Ok(data) => MapRows(data)
  }

  /** The listing of a table when the query succeeds. */
  function ListEntries(rows: seq<Row>): seq<Entry> {
    EntriesFromQuery(Ok(VisibleByRank(rows)))
  }

  predicate SortedByOrderRank(es: seq<Entry>) {
    forall i, j | 0 <= i < j < |es| :: es[i].orderRank <= es[j].orderRank
  }

  /** An entry is in the mapped list exactly when its columns are in the data. */
  lemma MapRowsMembership(data: seq<Row>)
    ensures forall e :: e in MapRows(data) <==> EntryColumns(e) in data
  {
    var es := MapRows(data);
    forall e ensures e in es <==> EntryColumns(e) in data {
      if e in es {
        var k :| 0 <= k < |es| && es[k] == e;
        assert EntryColumns(e) == data[k];
      }
      if EntryColumns(e) in data {
        var k :| 0 <= k < |data| && data[k] == EntryColumns(e);
        assert es[k] == e;
      }
    }
  }

  /** The listing holds exactly the stored rows whose `deleted_at` is null, as
      entries, sorted by `orderRank` ascending. */
  lemma ListEntriesSpec(rows: seq<Row>)
    ensures SortedByOrderRank(ListEntries(rows))
    ensures forall e | e in ListEntries(rows) :: e.deletedAt.None?
    ensures forall e :: e in ListEntries(rows) <==> EntryColumns(e) in rows && e.deletedAt.None?
    ensures |ListEntries(rows)| == |Visible(rows)|
  {
    var data := VisibleByRank(rows);
    VisibleByRankSpec(rows);
    MapRowsMembership(data);
    assert ListEntries(rows) == MapRows(data);
    forall e ensures EntryColumns(e) in data <==> EntryColumns(e) in rows && e.deletedAt.None? {
      assert EntryColumns(e).deleted_at == e.deletedAt;
    }
  }

  /** `getEntries`: a failed query is swallowed into the empty list. */
  method GetEntries(db: Table, fail: bool) returns (es: seq<Entry>)
    ensures es == if fail then [] else ListEntries(db.rows)
  {
    var answer := db.SelectVisible(fail);
    es := EntriesFromQuery(answer);
  }

  // ----- createEntry

  /** The insert body: exactly kind, content, is_done, width and height. */
  function CreatePayload(d: EntryDraft): InsertPayload {
    InsertPayload(d.kind, d.content, d.isDone, d.width, d.height)
  }

  /** The draft's `orderRank` and `deletedAt` are never sent. */
  lemma CreatePayloadOmits(d: EntryDraft, rank: int, deletedAt: Option<string>)
    ensures CreatePayload(d.(orderRank := rank, deletedAt := deletedAt)) == CreatePayload(d)
    ensures var p := CreatePayload(d);
      p.kind == d.kind && p.content == d.content && p.is_done == d.isDone && p.width == d.width && p.height == d.height
  {
  }

  /** The entry that creation returns when the backend assigns `freshId`, `rank`
      and `now`: the draft's own fields, the server's id, rank and timestamps. */
  function CreatedEntry(d: EntryDraft, freshId: string, rank: int, now: string): Entry {
    MapToEntry(InsertedRow(CreatePayload(d), freshId, rank, now))
  }

  /** After creation, the next listing holds the new entry, whose user-supplied
      fields equal the draft's and which is not deleted. */
  lemma CreateThenList(rows: seq<Row>, d: EntryDraft, freshId: string, rank: int, now: string)
    ensures var e := CreatedEntry(d, freshId, rank, now);
      && e in ListEntries(rows + [InsertedRow(CreatePayload(d), freshId, rank, now)])
      && e.id == freshId && e.kind == d.kind && e.content == d.content && e.isDone == d.isDone
      && e.width == d.width && e.height == d.height && e.orderRank == rank && e.deletedAt.None?
  {
    var row := InsertedRow(CreatePayload(d), freshId, rank, now);
    ListEntriesSpec(rows + [row]);
    assert EntryColumns(MapToEntry(row)) == row;
  }

  /** `createEntry`: a backend error is raised, not swallowed. */
  method CreateEntry(db: Table, d: EntryDraft, freshId: string, now: string, fail: bool)
    returns (r: Result<Entry, BackendError>)
    requires db.Valid() && Lookup(db.rows, freshId).None?
    modifies db
    ensures db.Valid()
    ensures r.Err? <==> fail
    ensures r.Err? ==> db.rows == old(db.rows)
    ensures r.Ok? ==> r.value == CreatedEntry(d, freshId, db.defaultOrderRank, now)
    ensures r.Ok? ==> db.rows == old(db.rows) + [InsertedRow(CreatePayload(d), freshId, db.defaultOrderRank, now)]
  {
    var payload := CreatePayload(d);
    var inserted := db.Insert(payload, freshId, now, fail);
    match inserted
    case Err(e) =>
      r := Err(e);
    case Ok(row) =>
      r := Ok(MapToEntry(row));
  }

  // ----- updateEntry

  /** The update body for `updates`: kind, content and is_done when they are
      present, `updated_at` always. */
  function UpdatePayloadOf(updates: EntryPatch, now: string): UpdatePayload {
    UpdatePayload(updates.kind, updates.content, updates.isDone, Some(now))
  }

  /** `payload` is built field by field, starting from `{}`. */
  method BuildUpdatePayload(updates: EntryPatch, now: string) returns (payload: UpdatePayload)
    ensures payload == UpdatePayloadOf(updates, now)
  {
    payload := UpdatePayload(None, None, None, None);
    if updates.kind.Some? {
      payload := payload.(kind := updates.kind);
    }
    if updates.content.Some? {
      payload := payload.(content := updates.content);
    }
    if updates.isDone.Some? {
      payload := payload.(is_done := updates.isDone);
    }
    payload := payload.(updated_at := Some(now));
  }

  /** Applied to a stored row, the update body changes kind, content and
      is_done exactly where `updates` sets them and always stamps
      `updated_at`; width, height, order_rank, deleted_at, created_at and the
      id are never changed, whatever `updates` says about them. */
  lemma UpdateChangesOnlySentColumns(row: Row, updates: EntryPatch, now: string)
    ensures var r := ApplyUpdate(row, UpdatePayloadOf(updates, now));
      && r.(kind := row.kind, content := row.content, is_done := row.is_done, updated_at := row.updated_at) == row
      && r.kind == updates.kind.GetOr(row.kind)
      && r.content == updates.content.GetOr(row.content)
      && r.is_done == updates.isDone.GetOr(row.is_done)
      && r.updated_at == Some(now)
  {
  }

  /** `updateEntry`: an unknown id makes `.single()` fail; errors are raised. */
  method UpdateEntry(db: Table, id: string, updates: EntryPatch, now: string, fail: bool)
    returns (r: Result<Entry, BackendError>)
    requires db.Valid()
    modifies db
    ensures db.Valid()
    ensures r.Err? <==> fail || Lookup(old(db.rows), id).None?
    ensures r.Err? ==> db.rows == old(db.rows)
    ensures r.Ok? ==> db.rows == UpdateWhere(old(db.rows), id, UpdatePayloadOf(updates, now))
    ensures r.Ok? ==> r.value == MapToEntry(ApplyUpdate(Lookup(old(db.rows), id).value, UpdatePayloadOf(updates, now)))
  {
    var payload := BuildUpdatePayload(updates, now);
    var updated := db.Update(id, payload, fail);
    match updated
    case Err(e) =>
      r := Err(e);
    case Ok(row) =>
      r := Ok(MapToEntry(row));
  }

  // ----- deleteEntry / undoDeleteEntry

  /** `deleteEntry`: stamps `deleted_at` on the row with that id. */
  method DeleteEntry(db: Table, id: string, now: string, fail: bool) returns (o: Outcome<BackendError>)
    requires db.Valid()
    modifies db
    ensures db.Valid()
    ensures o.Fail? <==> fail
    ensures db.rows == if fail then old(db.rows) else WithDeletedAt(old(db.rows), id, Some(now))
  {
    o := db.SetDeletedAt(id, Some(now), fail);
  }

  /** `undoDeleteEntry`: clears `deleted_at` on the row with that id. */
  method UndoDeleteEntry(db: Table, id: string, fail: bool) returns (o: Outcome<BackendError>)
    requires db.Valid()
    modifies db
    ensures db.Valid()
    ensures o.Fail? <==> fail
    ensures db.rows == if fail then old(db.rows) else WithDeletedAt(old(db.rows), id, None)
  {
    o := db.SetDeletedAt(id, None, fail);
  }

  /** A deleted entry is missing from the next listing; every other stored row
      is as it was. */
  lemma DeletedEntryNotListed(rows: seq<Row>, id: string, now: string)
    ensures forall e | e in ListEntries(WithDeletedAt(rows, id, Some(now))) :: e.id != id
    ensures forall x | x != id :: Lookup(WithDeletedAt(rows, id, Some(now)), x) == Lookup(rows, x)
  {
    var after := WithDeletedAt(rows, id, Some(now));
    ListEntriesSpec(after);
    forall e | e in ListEntries(after) ensures e.id != id {
      var k :| 0 <= k < |after| && after[k] == EntryColumns(e);
    }
    forall x | x != id ensures Lookup(after, x) == Lookup(rows, x) {
      LookupWithDeletedAt(rows, id, Some(now), x);
    }
  }

  // ----- updateEntriesOrder

  /** The upsert row for the entry at position `index`: its columns, with
      `order_rank` set to the position and a fresh `updated_at`. */
  function RankedRow(e: Entry, index: int, now: string): UpsertRow {
    UpsertRow(e.id, e.kind, e.content, e.isDone, index, e.width, e.height, e.deletedAt, now)
  }

  /** `entries.map((entry, index) => ...)`. */
  function OrderPayload(entries: seq<Entry>, now: string): (us: seq<UpsertRow>)
    ensures |us| == |entries|
    ensures forall k | 0 <= k < |entries| :: us[k] == RankedRow(entries[k], k, now)
  {
    seq(|entries|, k requires 0 <= k < |entries| => RankedRow(entries[k], k, now))
  }

  /** Ranks in the batch are dense, 0..n-1 in order, and the batch keeps the
      entries' ids in order, so unique ids make a valid upsert. */
  lemma OrderPayloadDense(entries: seq<Entry>, now: string)
    ensures forall k | 0 <= k < |entries| :: OrderPayload(entries, now)[k].order_rank == k
    ensures forall k | 0 <= k < |entries| :: OrderPayload(entries, now)[k].id == entries[k].id
    ensures UniqueIds(entries) <==> DistinctUpsertIds(OrderPayload(entries, now))
  {
  }

  /** After the batch is written, entry `i` of the sequence is stored with rank
      `i` and otherwise unchanged (apart from its new `updated_at` and the
      stored `created_at`), and rows outside the sequence are untouched. */
  lemma ReorderStoresRanks(rows: seq<Row>, entries: seq<Entry>, now: string, i: nat)
    requires UniqueIds(entries) && i < |entries|
    ensures var after := Upserted(rows, OrderPayload(entries, now), now);
      && Lookup(after, entries[i].id).Some?
      && var e := MapToEntry(Lookup(after, entries[i].id).value);
      && e.orderRank == i
      && e.(createdAt := entries[i].createdAt) == entries[i].(orderRank := i, updatedAt := Some(now))
    ensures forall x | forall k | 0 <= k < |entries| :: entries[k].id != x ::
      Lookup(Upserted(rows, OrderPayload(entries, now), now), x) == Lookup(rows, x)
  {
    var us := OrderPayload(entries, now);
    OrderPayloadDense(entries, now);
    LookupUpsertedHit(rows, us, now, i);
    forall x | forall k | 0 <= k < |entries| :: entries[k].id != x
      ensures Lookup(Upserted(rows, us, now), x) == Lookup(rows, x)
    {
      LookupUpsertedMiss(rows, us, now, x);
    }
  }

  /** `updateEntriesOrder`: one batch upsert; errors are raised. */
  method UpdateEntriesOrder(db: Table, entries: seq<Entry>, now: string, fail: bool)
    returns (o: Outcome<BackendError>)
    requires db.Valid()
    modifies db
    ensures db.Valid()
    ensures o.Fail? <==> fail || !UniqueIds(entries)
    ensures db.rows == if o.Fail? then old(db.rows) else Upserted(old(db.rows), OrderPayload(entries, now), now)
  {
    var updates := OrderPayload(entries, now);
    OrderPayloadDense(entries, now);
    o := db.Upsert(updates, now, fail);
  }
}
