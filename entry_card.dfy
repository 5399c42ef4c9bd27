/** One card of features/entries/components/EntryCard.tsx: its props (`entry`,
    `isSelected`, `viewMode`, whether `onResize` is given) and its two pieces of
    local state, the text being edited and the size being drawn. Callbacks to
    the parent are returned as values instead of being called. */
module EntryCard {
  import opened Wrappers
  import opened EntryTypes

  /** The size used for a falsy width or height. */
  const DefaultSize: int := 200
  /** The resize constraints: the height stays within [MinHeight, MaxHeight]. */
  const MinHeight: int := 40
  const MaxHeight: int := 2000
  /** An incoming size closer than this in both dimensions is not adopted. */
  const SyncThreshold: int := 2

  datatype Size = Size(width: int, height: int)

  /** `onUpdate(id, content)`. */
  datatype ContentUpdate = ContentUpdate(id: string, content: string)

  /** `onResize(id, width, height)`. */
  datatype ResizeReport = ResizeReport(id: string, width: int, height: int)

  /** `x || 200`: a falsy (zero) dimension falls back to the default. */
  function OrDefault(x: int): (r: int)
    ensures r != 0
    ensures x != 0 ==> r == x
    ensures x == 0 ==> r == DefaultSize
  {
    if x == 0 then DefaultSize else x
  }

  /** The size the card wants to draw for an entry. */
  function TargetSize(e: Entry): Size {
    Size(OrDefault(e.width), OrDefault(e.height))
  }

  function Abs(x: int): int {
    if x < 0 then -x else x
  }

  /** Both dimensions differ by less than the threshold. */
  predicate Near(a: Size, b: Size) {
    Abs(a.width - b.width) < SyncThreshold && Abs(a.height - b.height) < SyncThreshold
  }

  /** The size-sync effect: keep the drawn size when it is near the entry's,
      otherwise take the entry's. */
  function SyncedSize(prev: Size, e: Entry): Size {
    if Near(prev, TargetSize(e)) then prev else TargetSize(e)
  }

  /** After a sync the drawn size is near the entry's, it is either the old
      drawn size or the entry's size, an old size that was already near is
      kept, and syncing again changes nothing. */
  lemma SyncedSizeSpec(prev: Size, e: Entry)
    ensures Near(SyncedSize(prev, e), TargetSize(e))
    ensures SyncedSize(prev, e) == prev || SyncedSize(prev, e) == TargetSize(e)
    ensures Near(prev, TargetSize(e)) ==> SyncedSize(prev, e) == prev
    ensures SyncedSize(SyncedSize(prev, e), e) == SyncedSize(prev, e)
  {
  }

  function Clamp(x: int, lo: int, hi: int): int
    requires lo <= hi
  {
    if x < lo then lo else if x > hi then hi else x
  }

  /** The size the resizable box reports for a drag towards `requested`, given
      `minConstraints={[width, 40]}` and `maxConstraints={[width, 2000]}`. */
  function ResizedTo(current: Size, requested: Size): (r: Size)
    ensures r.width == current.width
    ensures MinHeight <= r.height <= MaxHeight
    ensures MinHeight <= requested.height <= MaxHeight ==> r.height == requested.height
    ensures requested.height < MinHeight ==> r.height == MinHeight
    ensures requested.height > MaxHeight ==> r.height == MaxHeight
  {
    Size(Clamp(requested.width, current.width, current.width), Clamp(requested.height, MinHeight, MaxHeight))
  }

  class Card {
    var entry: Entry
    var isSelected: bool
    var viewMode: ViewMode
    var hasOnResize: bool
    var editingContent: string
    var drawingSize: Size

    /** The first render: the text starts as the entry's content and the
        drawn size as the entry's size with falsy dimensions defaulted. */
    constructor (entry: Entry, isSelected: bool, viewMode: ViewMode, hasOnResize: bool)
      ensures this.entry == entry && this.isSelected == isSelected
      ensures this.viewMode == viewMode && this.hasOnResize == hasOnResize
      ensures editingContent == entry.content
      ensures drawingSize == TargetSize(entry)
    {
      this.entry := entry;
      this.isSelected := isSelected;
      this.viewMode := viewMode;
      this.hasOnResize := hasOnResize;
      editingContent := entry.content;
      drawingSize := Size(OrDefault(entry.width), OrDefault(entry.height));
    }

    /** A re-render with new props. The size effect runs only when the width
        or height changed, the content effect only when the content changed. */
    method ReceiveProps(next: Entry, isSelected: bool, viewMode: ViewMode, hasOnResize: bool)
      modifies this
      ensures entry == next && this.isSelected == isSelected
      ensures this.viewMode == viewMode && this.hasOnResize == hasOnResize
      ensures drawingSize ==
        if next.width != old(entry.width) || next.height != old(entry.height)
        then SyncedSize(old(drawingSize), next) else old(drawingSize)
      ensures editingContent ==
        if next.content != old(entry.content) then next.content else old(editingContent)
    {
      var previous := entry;
      entry := next;
      this.isSelected := isSelected;
      this.viewMode := viewMode;
      this.hasOnResize := hasOnResize;
      if next.width != previous.width || next.height != previous.height {
        drawingSize := SyncedSize(drawingSize, next);
      }
      if next.content != previous.content {
        editingContent := next.content;
      }
    }

    /** Typing in the editor. */
    method HandleChange(value: string)
      modifies this
      ensures editingContent == value
      ensures entry == old(entry) && drawingSize == old(drawingSize)
      ensures isSelected == old(isSelected) && viewMode == old(viewMode) && hasOnResize == old(hasOnResize)
    {
      editingContent := value;
    }

    /** Leaving the editor: an update is issued exactly when the text differs
        from the entry's content, and it carries the entry's id and the text. */
    method HandleBlur() returns (update: Option<ContentUpdate>)
      ensures update.Some? <==> editingContent != entry.content
      ensures update.Some? ==> update.value.id == entry.id && update.value.content == editingContent
    {
      if editingContent != entry.content {
        update := Some(ContentUpdate(entry.id, editingContent));
      } else {
        update := None;
      }
    }

    /** A click on the card selects it, but only while it is not selected. */
    method HandleCardClick() returns (selected: Option<Entry>)
      ensures selected.Some? <==> !isSelected
      ensures selected.Some? ==> selected.value == entry
    {
      if !isSelected {
        selected := Some(entry);
      } else {
        selected := None;
      }
    }

    /** A click on the delete button: `onDelete` receives this card's id in
        either state. The click is not stopped, so it bubbles to the card,
        which on an unselected card also selects the entry. */
    method HandleDeleteClick() returns (id: string, selected: Option<Entry>)
      ensures id == entry.id
      ensures selected.Some? <==> !isSelected
      ensures selected.Some? ==> selected.value == entry
    {
      id := entry.id;
      selected := HandleCardClick();
    }

    /** A step of a resize drag. Only the tile layout has a resize box. */
    method ResizeDrag(requested: Size) returns (handled: bool)
      modifies this
      ensures handled <==> viewMode == Tile
      ensures drawingSize == if handled then ResizedTo(old(drawingSize), requested) else old(drawingSize)
      ensures entry == old(entry) && editingContent == old(editingContent) && viewMode == old(viewMode)
      ensures isSelected == old(isSelected) && hasOnResize == old(hasOnResize)
    {
      handled := viewMode == Tile;
      if handled {
        drawingSize := ResizedTo(drawingSize, requested);
      }
    }

    /** The end of a resize drag: the drawn size becomes the reported size,
        and `onResize`, when given, receives the id and that size. */
    method ResizeStop(requested: Size) returns (report: Option<ResizeReport>)
      modifies this
      ensures viewMode == List ==> report.None? && drawingSize == old(drawingSize)
      ensures viewMode == Tile ==> drawingSize == ResizedTo(old(drawingSize), requested)
      ensures report.Some? <==> viewMode == Tile && hasOnResize
      ensures report.Some? ==> report.value == ResizeReport(entry.id, drawingSize.width, drawingSize.height)
      ensures entry == old(entry) && editingContent == old(editingContent) && viewMode == old(viewMode)
      ensures isSelected == old(isSelected) && hasOnResize == old(hasOnResize)
    {
      report := None;
      if viewMode == Tile {
        drawingSize := ResizedTo(drawingSize, requested);
        if hasOnResize {
          report := Some(ResizeReport(entry.id, drawingSize.width, drawingSize.height));
        }
      }
    }
  }
}
