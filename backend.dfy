/** The remote `entries` table that the gateway talks to, reduced to what the
    gateway's requests do to it. The table is a sequence of rows in storage
    order with unique ids; `Lookup` gives its id-to-row view. Each request
    takes a `fail` flag that stands for the backend answering with an error. */
module Backend {
  import opened Wrappers
  import opened EntryTypes

  /** A row as the database returns it; fields are named after the columns. */
  datatype Row = Row(
    id: string,
    kind: EntryKind,
    content: string,
    is_done: bool,
    order_rank: int,
    width: int,
    height: int,
    deleted_at: Option<string>,
    created_at: Option<string>,
    updated_at: Option<string>)

  /** The insert body sent on creation. */
  datatype InsertPayload = InsertPayload(kind: EntryKind, content: string, is_done: bool, width: int, height: int)

  /** The update body: each field is either absent or set. */
  datatype UpdatePayload = UpdatePayload(
    kind: Option<EntryKind>,
    content: Option<string>,
    is_done: Option<bool>,
    updated_at: Option<string>)

  /** One row of an upsert batch: every column except `created_at`. */
  datatype UpsertRow = UpsertRow(
    id: string,
    kind: EntryKind,
    content: string,
    is_done: bool,
    order_rank: int,
    width: int,
    height: int,
    deleted_at: Option<string>,
    updated_at: string)

  datatype BackendError =
    | RequestFailed       // transport or query error
    | NoSingleRow         // `.single()` found no row to return
    | DuplicateUpsertKey  // one upsert batch names the same id twice

  predicate DistinctIds(rows: seq<Row>) {
    forall i, j | 0 <= i < j < |rows| :: rows[i].id != rows[j].id
  }

  predicate DistinctUpsertIds(us: seq<UpsertRow>) {
    forall i, j | 0 <= i < j < |us| :: us[i].id != us[j].id
  }

  /** The row stored under `id`, if any. */
  function Lookup(rows: seq<Row>, id: string): (r: Option<Row>)
    ensures r.None? <==> forall k | 0 <= k < |rows| :: rows[k].id != id
    ensures r.Some? ==> r.value in rows && r.value.id == id
  {
    if rows == [] then None
    else if rows[0].id == id then Some(rows[0])
    else Lookup(rows[1..], id)
  }

  lemma {:induction false} LookupDistinct(rows: seq<Row>, k: nat)
    requires DistinctIds(rows) && k < |rows|
    ensures Lookup(rows, rows[k].id) == Some(rows[k])
  {
    if k > 0 {
      LookupDistinct(rows[1..], k - 1);
    }
  }

  // ----- listing: `.is('deleted_at', null).order('order_rank', { ascending: true })`

  /** The rows that are not soft-deleted, in storage order. */
  function Visible(rows: seq<Row>): (r: seq<Row>)
    ensures forall x :: multiset(r)[x] == if x.deleted_at.None? then multiset(rows)[x] else 0
  {
    if rows == [] then []
    else if rows[0].deleted_at.None? then
      assert rows == [rows[0]] + rows[1..];
      [rows[0]] + Visible(rows[1..])
    else
      assert rows == [rows[0]] + rows[1..];
      Visible(rows[1..])
  }

  predicate SortedByRank(rows: seq<Row>) {
    forall i, j | 0 <= i < j < |rows| :: rows[i].order_rank <= rows[j].order_rank
  }

  /** Places `x` before the first row of `sorted` whose rank is not smaller. */
  function InsertByRank(x: Row, sorted: seq<Row>): (r: seq<Row>)
    requires SortedByRank(sorted)
    ensures |r| == |sorted| + 1
    ensures SortedByRank(r)
    ensures multiset(r) == multiset(sorted) + multiset{x}
    decreases |sorted|, 1
  {
    if sorted == [] || x.order_rank <= sorted[0].order_rank then
      [x] + sorted
    else
      InsertAfterHead(x, sorted);
      [sorted[0]] + InsertByRank(x, sorted[1..])
  }

  lemma InsertAfterHead(x: Row, sorted: seq<Row>)
    requires SortedByRank(sorted) && sorted != [] && sorted[0].order_rank < x.order_rank
    ensures SortedByRank([sorted[0]] + InsertByRank(x, sorted[1..]))
    ensures multiset([sorted[0]] + InsertByRank(x, sorted[1..])) == multiset(sorted) + multiset{x}
    decreases |sorted|, 0
  {
    var tail := InsertByRank(x, sorted[1..]);
    assert sorted == [sorted[0]] + sorted[1..];
    forall k | 0 <= k < |tail| ensures sorted[0].order_rank <= tail[k].order_rank {
      assert tail[k] in multiset(tail);
      assert tail[k] == x || tail[k] in multiset(sorted[1..]);
    }
  }

  /** A stable ascending sort on `order_rank` (insertion sort). */
  function SortByRank(rows: seq<Row>): (r: seq<Row>)
    ensures SortedByRank(r)
    ensures multiset(r) == multiset(rows)
  {
    if rows == [] then []
    else
      assert rows == [rows[0]] + rows[1..];
      InsertByRank(rows[0], SortByRank(rows[1..]))
  }

  /** What the listing query returns for a table. */
  function VisibleByRank(rows: seq<Row>): seq<Row> {
    SortByRank(Visible(rows))
  }

  lemma VisibleByRankSpec(rows: seq<Row>)
    ensures SortedByRank(VisibleByRank(rows))
    ensures forall x | x in VisibleByRank(rows) :: x.deleted_at.None?
    ensures forall x :: x in VisibleByRank(rows) <==> x in rows && x.deleted_at.None?
    ensures |VisibleByRank(rows)| == |Visible(rows)|
  {
    var r := VisibleByRank(rows);
    assert multiset(r) == multiset(Visible(rows));
    forall x ensures x in r <==> x in rows && x.deleted_at.None? {
      assert x in r <==> multiset(r)[x] > 0;
      assert x in rows <==> multiset(rows)[x] > 0;
    }
  }

  // ----- single-row updates

  function ApplyUpdate(row: Row, p: UpdatePayload): Row {
    row.(kind := p.kind.GetOr(row.kind),
         content := p.content.GetOr(row.content),
         is_done := p.is_done.GetOr(row.is_done),
         updated_at := if p.updated_at.Some? then p.updated_at else row.updated_at)
  }

  /** `.update(p).eq('id', id)`. */
  function UpdateWhere(rows: seq<Row>, id: string, p: UpdatePayload): (r: seq<Row>)
    ensures |r| == |rows|
    ensures forall k | 0 <= k < |rows| ::
      r[k] == if rows[k].id == id then ApplyUpdate(rows[k], p) else rows[k]
  {
    if rows == [] then []
    else [if rows[0].id == id then ApplyUpdate(rows[0], p) else rows[0]] + UpdateWhere(rows[1..], id, p)
  }

  /** `.update({ deleted_at: v }).eq('id', id)`. */
  function WithDeletedAt(rows: seq<Row>, id: string, v: Option<string>): (r: seq<Row>)
    ensures |r| == |rows|
    ensures forall k | 0 <= k < |rows| ::
      r[k] == if rows[k].id == id then rows[k].(deleted_at := v) else rows[k]
  {
    if rows == [] then []
    else [if rows[0].id == id then rows[0].(deleted_at := v) else rows[0]] + WithDeletedAt(rows[1..], id, v)
  }

  /** Soft-deleting and then restoring a row that was visible gives the table back. */
  lemma DeleteRestoreRoundTrip(rows: seq<Row>, id: string, now: string)
    requires forall k | 0 <= k < |rows| && rows[k].id == id :: rows[k].deleted_at.None?
    ensures WithDeletedAt(WithDeletedAt(rows, id, Some(now)), id, None) == rows
  {
    var r := WithDeletedAt(WithDeletedAt(rows, id, Some(now)), id, None);
    assert forall k | 0 <= k < |rows| :: r[k] == rows[k];
  }

  /** Only the row with that id changes, and only in `deleted_at`. */
  lemma LookupWithDeletedAt(rows: seq<Row>, id: string, v: Option<string>, x: string)
    ensures Lookup(WithDeletedAt(rows, id, v), x) ==
      if x == id && Lookup(rows, x).Some? then Some(Lookup(rows, x).value.(deleted_at := v))
      else Lookup(rows, x)
  {
    if rows != [] {
      LookupWithDeletedAt(rows[1..], id, v, x);
      assert WithDeletedAt(rows, id, v)[1..] == WithDeletedAt(rows[1..], id, v);
    }
  }

  function InsertedRow(p: InsertPayload, id: string, rank: int, now: string): Row {
    Row(id, p.kind, p.content, p.is_done, rank, p.width, p.height, None, Some(now), Some(now))
  }

  // ----- upsert

  /** The row an upsert leaves under `u.id`, given what was stored there. */
  function Merge(old_row: Option<Row>, u: UpsertRow, now: string): Row {
    Row(u.id, u.kind, u.content, u.is_done, u.order_rank, u.width, u.height, u.deleted_at,
        if old_row.Some? then old_row.value.created_at else Some(now),
        Some(u.updated_at))
  }

  /** Upserts one row: overwrite the stored row with that id, or append a new one. */
  function UpsertOne(rows: seq<Row>, u: UpsertRow, now: string): seq<Row> {
    if rows == [] then [Merge(None, u, now)]
    else if rows[0].id == u.id then [Merge(Some(rows[0]), u, now)] + rows[1..]
    else [rows[0]] + UpsertOne(rows[1..], u, now)
  }

  function Upserted(rows: seq<Row>, us: seq<UpsertRow>, now: string): seq<Row>
    decreases |us|
  {
    if us == [] then rows else Upserted(UpsertOne(rows, us[0], now), us[1..], now)
  }

  lemma {:induction false} LookupUpsertOne(rows: seq<Row>, u: UpsertRow, now: string, x: string)
    ensures Lookup(UpsertOne(rows, u, now), x) ==
      if x == u.id then Some(Merge(Lookup(rows, x), u, now)) else Lookup(rows, x)
  {
    if rows != [] && rows[0].id != u.id {
      LookupUpsertOne(rows[1..], u, now, x);
    }
  }

  lemma {:induction false} UpsertOneIds(rows: seq<Row>, u: UpsertRow, now: string)
    requires DistinctIds(rows)
    ensures DistinctIds(UpsertOne(rows, u, now))
    ensures forall k | 0 <= k < |UpsertOne(rows, u, now)| ::
      UpsertOne(rows, u, now)[k].id == u.id || UpsertOne(rows, u, now)[k] in rows
  {
    if rows != [] && rows[0].id != u.id {
      UpsertOneIds(rows[1..], u, now);
      var tail := UpsertOne(rows[1..], u, now);
      assert UpsertOne(rows, u, now) == [rows[0]] + tail;
      forall k | 0 <= k < |tail| ensures tail[k].id != rows[0].id {
        if tail[k].id != u.id {
          var j :| 0 <= j < |rows[1..]| && rows[1..][j] == tail[k];
          assert rows[j + 1] == tail[k];
        }
      }
    }
  }

  lemma {:induction false} UpsertedKeepsDistinct(rows: seq<Row>, us: seq<UpsertRow>, now: string)
    requires DistinctIds(rows)
    ensures DistinctIds(Upserted(rows, us, now))
    decreases |us|
  {
    if us != [] {
      UpsertOneIds(rows, us[0], now);
      UpsertedKeepsDistinct(UpsertOne(rows, us[0], now), us[1..], now);
    }
  }

  /** An id that the batch does not name keeps its row. */
  lemma {:induction false} LookupUpsertedMiss(rows: seq<Row>, us: seq<UpsertRow>, now: string, x: string)
    requires forall k | 0 <= k < |us| :: us[k].id != x
    ensures Lookup(Upserted(rows, us, now), x) == Lookup(rows, x)
    decreases |us|
  {
    if us != [] {
      LookupUpsertOne(rows, us[0], now, x);
      LookupUpsertedMiss(UpsertOne(rows, us[0], now), us[1..], now, x);
    }
  }

  /** An id that the batch names once ends up holding that batch row's columns. */
  lemma {:induction false} LookupUpsertedHit(rows: seq<Row>, us: seq<UpsertRow>, now: string, k: nat)
    requires DistinctUpsertIds(us) && k < |us|
    ensures Lookup(Upserted(rows, us, now), us[k].id) == Some(Merge(Lookup(rows, us[k].id), us[k], now))
    decreases |us|
  {
    var x := us[k].id;
    var next := UpsertOne(rows, us[0], now);
    LookupUpsertOne(rows, us[0], now, x);
    if k == 0 {
      LookupUpsertedMiss(next, us[1..], now, x);
    } else {
      LookupUpsertedHit(next, us[1..], now, k - 1);
    }
  }

  // ----- the table object

  class Table {
    var rows: seq<Row>
    /** The column default that a new row's `order_rank` takes. */
    const defaultOrderRank: int

    ghost predicate Valid()
      reads this
    {
      DistinctIds(rows)
    }

    constructor (initial: seq<Row>, defaultOrderRank: int)
      requires DistinctIds(initial)
      ensures Valid() && rows == initial && this.defaultOrderRank == defaultOrderRank
    {
      rows := initial;
      this.defaultOrderRank := defaultOrderRank;
    }

    /** `select('*').is('deleted_at', null).order('order_rank', { ascending: true })`. */
    method SelectVisible(fail: bool) returns (r: Result<seq<Row>, BackendError>)
      ensures r.Err? <==> fail
      ensures r.Ok? ==> r.value == VisibleByRank(rows)
    {
      if fail {
        r := Err(RequestFailed);
      } else {
        r := Ok(VisibleByRank(rows));
      }
    }

    /** `insert(p).select().single()`: the backend assigns the id, the default
        rank and both timestamps. */
    method Insert(p: InsertPayload, freshId: string, now: string, fail: bool) returns (r: Result<Row, BackendError>)
      requires Valid() && Lookup(rows, freshId).None?
      modifies this
      ensures Valid()
      ensures r.Err? <==> fail
      ensures r.Err? ==> rows == old(rows)
      ensures r.Ok? ==> r.value == InsertedRow(p, freshId, defaultOrderRank, now) && rows == old(rows) + [r.value]
    {
      if fail {
        r := Err(RequestFailed);
        return;
      }
      var row := InsertedRow(p, freshId, defaultOrderRank, now);
      rows := rows + [row];
      r := Ok(row);
    }

    /** `update(p).eq('id', id).select().single()`: an unknown id is an error. */
    method Update(id: string, p: UpdatePayload, fail: bool) returns (r: Result<Row, BackendError>)
      requires Valid()
      modifies this
      ensures Valid()
      ensures r.Err? <==> fail || Lookup(old(rows), id).None?
      ensures r.Err? ==> rows == old(rows)
      ensures r.Ok? ==> r.value == ApplyUpdate(Lookup(old(rows), id).value, p) && rows == UpdateWhere(old(rows), id, p)
    {
      if fail {
        r := Err(RequestFailed);
        return;
      }
      var found := Lookup(rows, id);
      if found.None? {
        r := Err(NoSingleRow);
        return;
      }
      rows := UpdateWhere(rows, id, p);
      r := Ok(ApplyUpdate(found.value, p));
    }

    /** `update({ deleted_at: v }).eq('id', id)`: an unknown id changes nothing
        and is not an error. */
    method SetDeletedAt(id: string, v: Option<string>, fail: bool) returns (o: Outcome<BackendError>)
      requires Valid()
      modifies this
      ensures Valid()
      ensures o.Fail? <==> fail
      ensures rows == if fail then old(rows) else WithDeletedAt(old(rows), id, v)
    {
      if fail {
        o := Fail(RequestFailed);
        return;
      }
      rows := WithDeletedAt(rows, id, v);
      o := Pass;
    }

    /** `upsert(us)`: all rows of the batch are written together. */
    method Upsert(us: seq<UpsertRow>, now: string, fail: bool) returns (o: Outcome<BackendError>)
      requires Valid()
      modifies this
      ensures Valid()
      ensures o.Fail? <==> fail || !DistinctUpsertIds(us)
      ensures rows == if o.Fail? then old(rows) else Upserted(old(rows), us, now)
    {
      if fail {
        o := Fail(RequestFailed);
        return;
      }
      if !DistinctUpsertIds(us) {
        o := Fail(DuplicateUpsertKey);
        return;
      }
      UpsertedKeepsDistinct(rows, us, now);
      rows := Upserted(rows, us, now);
      o := Pass;
    }
  }
}
