/** The per-kind list of features/entries/components/EntryList.tsx: it filters
    the board's entries to one kind, marks the selected card, and on a drop
    computes the new order with dnd-kit's `arrayMove`. */
module EntryList {
  import opened Wrappers
  import opened EntryTypes
  import opened Backend
  import opened EntryApi

  /** `a` is `b` with some elements left out, the rest in the same order. */
  predicate IsSubsequence<T(==)>(a: seq<T>, b: seq<T>)
    decreases |b|
  {
    if a == [] then true
    else if b == [] then false
    else if a[0] == b[0] then IsSubsequence(a[1..], b[1..])
    else IsSubsequence(a, b[1..])
  }

  /** `entries.filter(entry => entry.kind === kind)`: exactly the entries of
      that kind, each as often as in `entries`, in their original order. */
  function FilterByKind(entries: seq<Entry>, kind: EntryKind): (r: seq<Entry>)
    ensures forall e | e in r :: e.kind == kind
    ensures forall e :: multiset(r)[e] == if e.kind == kind then multiset(entries)[e] else 0
    ensures IsSubsequence(r, entries)
  {
    if entries == [] then []
    else
      var rest := FilterByKind(entries[1..], kind);
      assert entries == [entries[0]] + entries[1..];
      if entries[0].kind == kind then
        [entries[0]] + rest
      else
        assert rest != [] ==> rest[0] in rest;
        rest
  }

  /** Filtering keeps ids unique. */
  lemma {:induction false} FilterKeepsUniqueIds(entries: seq<Entry>, kind: EntryKind)
    requires UniqueIds(entries)
    ensures UniqueIds(FilterByKind(entries, kind))
  {
    if entries != [] {
      FilterKeepsUniqueIds(entries[1..], kind);
      var rest := FilterByKind(entries[1..], kind);
      if entries[0].kind == kind {
        forall k | 0 <= k < |rest| ensures rest[k].id != entries[0].id {
          assert multiset(rest)[rest[k]] > 0;
          assert rest[k] in entries[1..];
        }
        assert FilterByKind(entries, kind) == [entries[0]] + rest;
      }
    }
  }

  predicate HasId(s: seq<Entry>, id: string) {
    exists k | 0 <= k < |s| :: s[k].id == id
  }

  /** `s.findIndex(e => e.id === id)`: the first position holding `id`, or -1. */
  function FindIndex(s: seq<Entry>, id: string): (r: int)
    ensures -1 <= r < |s|
    ensures r == -1 <==> !HasId(s, id)
    ensures 0 <= r ==> s[r].id == id && forall k | 0 <= k < r :: s[k].id != id
  {
    if s == [] then -1
    else if s[0].id == id then 0
    else
      var t := FindIndex(s[1..], id);
      assert HasId(s, id) <==> HasId(s[1..], id) by {
        if HasId(s, id) {
          var k :| 0 <= k < |s| && s[k].id == id;
          assert s[1..][k - 1].id == id;
        }
        if HasId(s[1..], id) {
          var k :| 0 <= k < |s[1..]| && s[1..][k].id == id;
          assert s[k + 1].id == id;
        }
      }
      if t == -1 then -1 else t + 1
  }

  // ----- arrayMove

  function RemoveAt<T>(s: seq<T>, i: nat): seq<T>
    requires i < |s|
  {
    s[..i] + s[i + 1..]
  }

  function InsertAt<T>(s: seq<T>, i: nat, x: T): seq<T>
    requires i <= |s|
  {
    s[..i] + [x] + s[i..]
  }

  /** dnd-kit's `arrayMove(s, from, to)`: take the element at `from` out and put
      it back in at `to`. It lands at `to`, and the others keep their order. */
  function ArrayMove<T>(s: seq<T>, from: nat, to: nat): (r: seq<T>)
    requires from < |s| && to < |s|
    ensures |r| == |s| && r[to] == s[from]
    ensures RemoveAt(r, to) == RemoveAt(s, from)
    ensures multiset(r) == multiset(s)
  {
    var rest := RemoveAt(s, from);
    assert s == s[..from] + [s[from]] + s[from + 1..];
    var r := InsertAt(rest, to, s[from]);
    assert r[..to] + r[to + 1..] == rest;
    assert rest == rest[..to] + rest[to..];
    assert multiset(r) == multiset(rest) + multiset{s[from]};
    assert multiset(s) == multiset(rest) + multiset{s[from]};
    r
  }

  /** Where the element at position `i` after the move came from. */
  function MovedFrom(from: nat, to: nat, i: nat): nat {
    if i == to then from
    else if from < to && from <= i < to then i + 1
    else if to < from && to < i <= from then i - 1
    else i
  }

  /** The move, position by position: the moved element lands at `to`, the
      ones between shift by one towards `from`, and the rest stay put. */
  lemma ArrayMoveAt<T>(s: seq<T>, from: nat, to: nat, i: nat)
    requires from < |s| && to < |s| && i < |s|
    ensures MovedFrom(from, to, i) < |s|
    ensures ArrayMove(s, from, to)[i] == s[MovedFrom(from, to, i)]
  {
    var rest := RemoveAt(s, from);
    var r := ArrayMove(s, from, to);
    assert r == rest[..to] + [s[from]] + rest[to..];
    if i < to {
      assert r[i] == rest[i];
    } else if i > to {
      assert r[i] == rest[i - 1];
    }
  }

  lemma InsertRemoved<T>(s: seq<T>, i: nat)
    requires i < |s|
    ensures InsertAt(RemoveAt(s, i), i, s[i]) == s
  {
    assert s == s[..i] + [s[i]] + s[i + 1..];
  }

  /** Moving back undoes a move; moving in place changes nothing. */
  lemma ArrayMoveUndo<T>(s: seq<T>, from: nat, to: nat)
    requires from < |s| && to < |s|
    ensures ArrayMove(ArrayMove(s, from, to), to, from) == s
    ensures ArrayMove(s, from, from) == s
  {
    InsertRemoved(s, from);
  }

  // ----- drag end

  /** The ids dnd-kit reports when a drag ends: the dragged item and the
      item under it, if any. */
  datatype DragEnd = DragEnd(active: string, over: Option<string>)

  /** `handleDragEnd`: the call to `onReorder` it makes, if any. dnd-kit only
      reports ids of the items of this list's sortable context, which are the
      filtered entries. */
  function HandleDragEnd(entries: seq<Entry>, kind: EntryKind, ev: DragEnd, hasOnReorder: bool)
    : (call: Option<seq<Entry>>)
    requires HasId(FilterByKind(entries, kind), ev.active)
    requires ev.over.Some? ==> HasId(FilterByKind(entries, kind), ev.over.value)
    ensures call.None? <==> ev.over.None? || ev.over.value == ev.active || !hasOnReorder
    ensures call.Some? ==>
      var f := FilterByKind(entries, kind);
      var oldIndex := FindIndex(f, ev.active);
      var newIndex := FindIndex(f, ev.over.value);
      && 0 <= oldIndex < |f| && f[oldIndex].id == ev.active
      && 0 <= newIndex < |f| && f[newIndex].id == ev.over.value
      && |call.value| == |f|
      && call.value[newIndex] == f[oldIndex]
      && RemoveAt(call.value, newIndex) == RemoveAt(f, oldIndex)
      && multiset(call.value) == multiset(f)
  {
    if ev.over.None? || ev.active == ev.over.value || !hasOnReorder then None
    else
      var filtered := FilterByKind(entries, kind);
      var oldIndex := FindIndex(filtered, ev.active);
      var newIndex := FindIndex(filtered, ev.over.value);
      Some(ArrayMove(filtered, oldIndex, newIndex))
  }

  /** A list that holds only entries of one kind filters to itself. */
  lemma {:induction false} FilterAllOfKind(entries: seq<Entry>, kind: EntryKind)
    requires forall k | 0 <= k < |entries| :: entries[k].kind == kind
    ensures FilterByKind(entries, kind) == entries
  {
    if entries != [] {
      FilterAllOfKind(entries[1..], kind);
    }
  }

  lemma {:induction false} FindIndexExample(a: Entry, b: Entry, c: Entry)
    requires a.id != b.id && a.id != c.id && b.id != c.id
    ensures FindIndex([a, b, c], a.id) == 0
    ensures FindIndex([a, b, c], b.id) == 1
  {
    assert [a, b, c][1..] == [b, c];
  }

  lemma MoveFirstToSecond(a: Entry, b: Entry, c: Entry)
    ensures ArrayMove([a, b, c], 0, 1) == [b, a, c]
  {
    var s := [a, b, c];
    ArrayMoveAt(s, 0, 1, 0);
    ArrayMoveAt(s, 0, 1, 1);
    ArrayMoveAt(s, 0, 1, 2);
  }

  /** Dragging A onto B in [A, B, C] gives [B, A, C]; persisting that order
      stores ranks 0, 1, 2 for B, A, C. */
  lemma DragExample(a: Entry, b: Entry, c: Entry, now: string)
    requires a.kind == b.kind && b.kind == c.kind
    requires a.id != b.id && a.id != c.id && b.id != c.id
    ensures HasId(FilterByKind([a, b, c], a.kind), a.id)
    ensures HasId(FilterByKind([a, b, c], a.kind), b.id)
    ensures HandleDragEnd([a, b, c], a.kind, DragEnd(a.id, Some(b.id)), true) == Some([b, a, c])
    ensures var us := OrderPayload([b, a, c], now);
      && us[0].id == b.id && us[0].order_rank == 0
      && us[1].id == a.id && us[1].order_rank == 1
      && us[2].id == c.id && us[2].order_rank == 2
  {
    var s := [a, b, c];
    FilterAllOfKind(s, a.kind);
    FindIndexExample(a, b, c);
    MoveFirstToSecond(a, b, c);
    assert s[0].id == a.id && s[1].id == b.id;
  }

  // ----- selection

  /** `isSelected={entry.id === selectedId}`. */
  predicate IsSelected(e: Entry, selectedId: Option<string>) {
    selectedId == Some(e.id)
  }

  /** With unique ids, at most one card of a list is marked selected, and it
      is the one whose id is `selectedId`. */
  lemma AtMostOneSelected(entries: seq<Entry>, kind: EntryKind, selectedId: Option<string>)
    requires UniqueIds(entries)
    ensures var f := FilterByKind(entries, kind);
      forall i, j | 0 <= i < |f| && 0 <= j < |f| && IsSelected(f[i], selectedId) && IsSelected(f[j], selectedId) ::
        i == j && selectedId == Some(f[i].id)
  {
    FilterKeepsUniqueIds(entries, kind);
  }
}
