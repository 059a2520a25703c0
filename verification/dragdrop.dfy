/**
  The editor's drag-and-drop handler. A drag that ends over nothing does
  nothing; a drag from the component palette that ends over the canvas or one
  of its components appends a new component of the dragged type; a drag of a
  canvas component onto another one moves it to that one's position.
 */
module DragDrop {
  import opened Js
  import opened Document

  /** The id of the canvas drop area. */
  const CanvasDroppableId: string := "canvas-droppable"

  /** What the drag source carries: palette items are flagged and name a type
      (absent when the item carries none). */
  datatype DragData = DragData(isSidebar: bool, kind: Option<ComponentType>)

  datatype DragEvent = DragEvent(activeId: string, data: Option<DragData>, overId: Option<string>)

  // ---------------------------------------------------------------------------
  // Moving an element of a list

  function RemoveAt<T>(s: seq<T>, i: nat): (r: seq<T>)
    requires i < |s|
    ensures |r| == |s| - 1
    ensures forall k :: 0 <= k < i ==> r[k] == s[k]
    ensures forall k :: i <= k < |r| ==> r[k] == s[k + 1]
    ensures multiset(r) + multiset{s[i]} == multiset(s)
  {
    assert s == s[..i] + [s[i]] + s[i + 1..];
    s[..i] + s[i + 1..]
  }

  function InsertAt<T>(s: seq<T>, i: nat, x: T): (r: seq<T>)
    requires i <= |s|
    ensures |r| == |s| + 1 && r[i] == x
    ensures forall k :: 0 <= k < i ==> r[k] == s[k]
    ensures forall k :: i < k < |r| ==> r[k] == s[k - 1]
    ensures multiset(r) == multiset(s) + multiset{x}
  {
    assert s == s[..i] + s[i..];
    s[..i] + [x] + s[i..]
  }

  /** `arrayMove(s, from, to)`: take the element at `from` out and put it back
      in so that it ends up at `to`; the elements between shift by one. */
  function ArrayMove<T>(s: seq<T>, from: nat, to: nat): (r: seq<T>)
    requires from < |s| && to < |s|
    ensures |r| == |s| && r[to] == s[from]
    ensures multiset(r) == multiset(s)
    ensures forall k :: 0 <= k < |s| && k < from && k < to ==> r[k] == s[k]
    ensures forall k :: 0 <= k < |s| && k > from && k > to ==> r[k] == s[k]
    ensures forall k :: from <= k < to ==> r[k] == s[k + 1]
    ensures forall k :: to < k <= from ==> r[k] == s[k - 1]
  {
    InsertAt(RemoveAt(s, from), to, s[from])
  }

  /** Moving back to where it came from restores the list. */
  lemma ArrayMoveInverse<T>(s: seq<T>, from: nat, to: nat)
    requires from < |s| && to < |s|
    ensures ArrayMove(ArrayMove(s, from, to), to, from) == s
  {
    var m := ArrayMove(s, from, to);
    var back := ArrayMove(m, to, from);
    forall k | 0 <= k < |s| ensures back[k] == s[k] {
      if k == from {
      } else if from < to && from < k <= to {
        assert back[k] == m[k - 1];
      } else if to < from && from > k >= to {
        assert back[k] == m[k + 1];
      }
    }
  }

  // ---------------------------------------------------------------------------
  // The handler

  /** `components.findIndex(c => c.id === id)` */
  function FindComponentIndex(cs: seq<Component>, id: string): (r: int)
    ensures -1 <= r < |cs|
    ensures r == -1 <==> forall k :: 0 <= k < |cs| ==> cs[k].id != id
    ensures r != -1 ==> cs[r].id == id && forall k :: 0 <= k < r ==> cs[k].id != id
    decreases |cs|
  {
    if |cs| == 0 then -1
    else if cs[0].id == id then 0
    else
      var rest := FindComponentIndex(cs[1..], id);
      if rest == -1 then -1 else rest + 1
  }

  /** A palette drop lands when it ends over the canvas or a shown component. */
  predicate DropTarget(cs: seq<Component>, overId: string) {
    overId == CanvasDroppableId || exists k :: 0 <= k < |cs| && cs[k].id == overId
  }

  /** `handleDragEnd`; `freshId` stands for the id generator's next value. */
  function HandleDragEnd(app: AppState, ev: DragEvent, freshId: string): (r: AppState)
    ensures ev.overId.None? ==> r == app
    ensures r.activeScreenId == app.activeScreenId && r.selectedId == app.selectedId
    ensures r.isPreviewMode == app.isPreviewMode
    ensures ev.data.Some? && ev.data.value.isSidebar ==>
              if ev.overId.Some? && ev.data.value.kind.Some? && DropTarget(ActiveComponents(app), ev.overId.value)
              then r == AddComponent(app, Component(freshId, ev.data.value.kind.value, map[], None))
              else r == app
    ensures (ev.data.None? || !ev.data.value.isSidebar) && ev.overId.Some? ==>
              if ev.overId.value != ev.activeId
                 && FindComponentIndex(ActiveComponents(app), ev.activeId) != -1
                 && FindComponentIndex(ActiveComponents(app), ev.overId.value) != -1
              then r == ReorderComponents(app, ArrayMove(ActiveComponents(app),
                          FindComponentIndex(ActiveComponents(app), ev.activeId),
                          FindComponentIndex(ActiveComponents(app), ev.overId.value)))
              else r == app
  {
    match ev.overId
    case None => app
    case Some(over) =>
      var cs := ActiveComponents(app);
      if ev.data.Some? && ev.data.value.isSidebar then
        if DropTarget(cs, over) && ev.data.value.kind.Some? then
          AddComponent(app, Component(freshId, ev.data.value.kind.value, map[], None))
        else app
      else if ev.activeId != over then
        var oldIndex := FindComponentIndex(cs, ev.activeId);
        var newIndex := FindComponentIndex(cs, over);
        if oldIndex != -1 && newIndex != -1 then
          ReorderComponents(app, ArrayMove(cs, oldIndex, newIndex))
        else app
      else app
  }

  // ---------------------------------------------------------------------------
  // Properties

  /** A palette drop over the canvas shows the new, empty component last. */
  lemma PaletteDropAppends(app: AppState, kind: ComponentType, over: string, activeId: string, freshId: string)
    requires ActiveExists(app) && DropTarget(ActiveComponents(app), over)
    ensures var r := HandleDragEnd(app, DragEvent(activeId, Some(DragData(true, Some(kind))), Some(over)), freshId);
            ActiveComponents(r) == ActiveComponents(app) + [Component(freshId, kind, map[], None)]
  {
    AddComponentAppends(app, Component(freshId, kind, map[], None));
  }

  /** Dragging a canvas component onto another shown one moves it there and
      keeps the same components. */
  lemma ReorderMovesDragged(app: AppState, activeId: string, over: string, data: Option<DragData>, freshId: string)
    requires ActiveExists(app) && activeId != over
    requires data.None? || !data.value.isSidebar
    requires FindComponentIndex(ActiveComponents(app), activeId) != -1
    requires FindComponentIndex(ActiveComponents(app), over) != -1
    ensures var cs := ActiveComponents(app);
            var after := ActiveComponents(HandleDragEnd(app, DragEvent(activeId, data, Some(over)), freshId));
            && |after| == |cs|
            && multiset(after) == multiset(cs)
            && after[FindComponentIndex(cs, over)] == cs[FindComponentIndex(cs, activeId)]
            && after[FindComponentIndex(cs, over)].id == activeId
  {
    var cs := ActiveComponents(app);
    ReorderThenRead(app, ArrayMove(cs, FindComponentIndex(cs, activeId), FindComponentIndex(cs, over)));
  }
}
