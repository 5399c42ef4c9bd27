/** The `Entry` record of the board (features/entries/types.ts) and the small
    value types that the components share. */
module EntryTypes {
  import opened Wrappers

  /** `'note' | 'task'`: exactly two kinds. */
  datatype EntryKind = Note | Task

  /** The two layouts of the board, `'list' | 'tile'`. */
  datatype ViewMode = List | Tile

  /** One note or task. `deletedAt` is a timestamp or null; `createdAt` and
      `updatedAt` are the two optional fields, every other field is required.
      `orderRank` is a number; the code only ever stores array positions in it. */
  datatype Entry = Entry(
    id: string,
    kind: EntryKind,
    content: string,
    isDone: bool,
    orderRank: int,
    width: int,
    height: int,
    deletedAt: Option<string>,
    createdAt: Option<string>,
    updatedAt: Option<string>)

  /** `Omit<Entry, 'id' | 'createdAt' | 'updatedAt'>`: what a caller hands to creation. */
  datatype EntryDraft = EntryDraft(
    kind: EntryKind,
    content: string,
    isDone: bool,
    orderRank: int,
    width: int,
    height: int,
    deletedAt: Option<string>)

  /** `Partial<Entry>`: every field may be left out. `deletedAt` is doubly
      optional: left out, or present with a timestamp or null. */
  datatype EntryPatch = EntryPatch(
    id: Option<string>,
    kind: Option<EntryKind>,
    content: Option<string>,
    isDone: Option<bool>,
    orderRank: Option<int>,
    width: Option<int>,
    height: Option<int>,
    deletedAt: Option<Option<string>>,
    createdAt: Option<string>,
    updatedAt: Option<string>)

  /** `{ content }`: a patch that sets the content only. */
  function ContentPatch(content: string): EntryPatch {
    EntryPatch(None, None, Some(content), None, None, None, None, None, None, None)
  }

  /** `{ ...e, ...p }`: the fields present in `p` overwrite those of `e`. */
  function Spread(e: Entry, p: EntryPatch): Entry {
    Entry(
      p.id.GetOr(e.id),
      p.kind.GetOr(e.kind),
      p.content.GetOr(e.content),
      p.isDone.GetOr(e.isDone),
      p.orderRank.GetOr(e.orderRank),
      p.width.GetOr(e.width),
      p.height.GetOr(e.height),
      p.deletedAt.GetOr(e.deletedAt),
      if p.createdAt.Some? then p.createdAt else e.createdAt,
      if p.updatedAt.Some? then p.updatedAt else e.updatedAt)
  }

  /** No two entries share an id (the backend assigns unique ids). */
  predicate UniqueIds(es: seq<Entry>) {
    forall i, j | 0 <= i < j < |es| :: es[i].id != es[j].id
  }
}
