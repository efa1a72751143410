// The interaction state of src/components/MindmapCanvas.tsx: the press that
// either selects a node or starts a pan, the pointer moves that pan or hover,
// release and leave, the wheel, and the choice of edges drawConnections draws.
//
// The canvas' bounding rectangle is an Option<Point> (None when the canvas is
// not mounted); the callbacks the component calls are returned as values.
module Canvas {
  import opened Types
  import opened SpatialQuery
  import opened ViewMath
  import opened RadialLayout

  // ---------------------------------------------------------------------
  // Press: click a node or start a drag
  // ---------------------------------------------------------------------

  /** What a press over the canvas does. */
  datatype Press = Click(id: string) | BeginDrag(start: Point)

  /** The press at canvas point (x, y): the id of the node under it, or a drag anchored at the client point. */
  function PressAt(nodes: seq<CanvasNode>, x: real, y: real, clientX: real, clientY: real, t: ViewTransform): Press
    requires t.scale != 0.0
  {
    var hit := NodeAt(nodes, ToCanvas(x, t.x, t.scale), ToCanvas(y, t.y, t.scale));
    if hit.Some? then Click(hit.value.node.id) else BeginDrag(DragStart(clientX, clientY, t))
  }

  /**
   * A press selects exactly when a visible node's disc holds the logical
   * point, and then names a visible node of the list whose disc holds it; it
   * starts a drag anchored at client - pan exactly when no disc holds it.
   */
  lemma PressDecides(nodes: seq<CanvasNode>, cx: real, cy: real, x: real, y: real, clientX: real, clientY: real, t: ViewTransform)
    requires t.scale != 0.0
    requires cx == ToCanvas(x, t.x, t.scale) && cy == ToCanvas(y, t.y, t.scale)
    ensures PressAt(nodes, x, y, clientX, clientY, t).Click? <==> exists c :: c in nodes && c.visible && Hits(c, cx, cy)
    ensures PressAt(nodes, x, y, clientX, clientY, t).Click? ==>
              exists c :: c in nodes && c.visible && Hits(c, cx, cy) && c.node.id == PressAt(nodes, x, y, clientX, clientY, t).id
    ensures PressAt(nodes, x, y, clientX, clientY, t).BeginDrag? ==>
              PressAt(nodes, x, y, clientX, clientY, t).start == Point(clientX - t.x, clientY - t.y)
  {
    NodeAtCorrect(nodes, cx, cy);
    if NodeAt(nodes, cx, cy).Some? {
      var c := NodeAt(nodes, cx, cy).value;
      assert c in nodes && c.visible && Hits(c, cx, cy);
    }
  }

  /** A drag started by a press and followed to another client point moves the pan by the pointer's motion. */
  lemma PressThenDrag(nodes: seq<CanvasNode>, x: real, y: real, downX: real, downY: real, t: ViewTransform, clientX: real, clientY: real)
    requires t.scale != 0.0
    requires PressAt(nodes, x, y, downX, downY, t).BeginDrag?
    ensures DragTo(t, PressAt(nodes, x, y, downX, downY, t).start, clientX, clientY)
            == ViewTransform(t.x + (clientX - downX), t.y + (clientY - downY), t.scale)
  {
    DragFollowsPointer(t, downX, downY, clientX, clientY);
  }

  // ---------------------------------------------------------------------
  // The component's drag state
  // ---------------------------------------------------------------------

  /** What a pointer move asks of the parent: a new transform, or the hovered id (None clears the hover). */
  datatype MoveEffect = NoEffect | PanTo(transform: ViewTransform) | HoverOn(id: Option<string>)

  /** The hovered id at the logical point. */
  function HoverAt(nodes: seq<CanvasNode>, cx: real, cy: real): Option<string>
  {
    var hit := NodeAt(nodes, cx, cy);
    if hit.Some? then Some(hit.value.node.id) else None
  }

  class CanvasInteraction {
    var isDragging: bool
    var dragStart: Point

    /** useState(false) and useState({x: 0, y: 0}). */
    constructor ()
      ensures !isDragging && dragStart == Point(0.0, 0.0)
    {
      isDragging := false;
      dragStart := Point(0.0, 0.0);
    }

    /** handleMouseDown: report the clicked id, or start dragging from client - pan. */
    method MouseDown(nodes: seq<CanvasNode>, rect: Option<Point>, clientX: real, clientY: real, transform: ViewTransform)
      returns (clicked: Option<string>)
      requires transform.scale != 0.0
      modifies this
      ensures rect.None? ==> clicked == None && isDragging == old(isDragging) && dragStart == old(dragStart)
      ensures rect.Some? ==>
                match PressAt(nodes, clientX - rect.value.x, clientY - rect.value.y, clientX, clientY, transform)
                case Click(id) => clicked == Some(id) && isDragging == old(isDragging) && dragStart == old(dragStart)
                case BeginDrag(start) => clicked == None && isDragging && dragStart == start
    {
      clicked := None;
      if rect.None? {
        return;
      }
      var x := clientX - rect.value.x;
      var y := clientY - rect.value.y;
      var clickedNode := FindNodeAtPosition(nodes, x, y, transform);
      if clickedNode.Some? {
        clicked := Some(clickedNode.value.node.id);
      } else {
        isDragging := true;
        dragStart := DragStart(clientX, clientY, transform);
      }
    }

    /** handleMouseMove: pan while dragging, otherwise report the hovered node (or none). */
    method MouseMove(nodes: seq<CanvasNode>, rect: Option<Point>, clientX: real, clientY: real, transform: ViewTransform)
      returns (effect: MoveEffect)
      requires transform.scale != 0.0
      ensures rect.None? ==> effect == NoEffect
      ensures rect.Some? && isDragging ==>
                effect == PanTo(ViewTransform(clientX - dragStart.x, clientY - dragStart.y, transform.scale))
      ensures rect.Some? && !isDragging ==>
                effect == HoverOn(HoverAt(nodes, ToCanvas(clientX - rect.value.x, transform.x, transform.scale),
                                          ToCanvas(clientY - rect.value.y, transform.y, transform.scale)))
    {
      if rect.None? {
        return NoEffect;
      }
      var x := clientX - rect.value.x;
      var y := clientY - rect.value.y;
      if isDragging {
        effect := PanTo(DragTo(transform, dragStart, clientX, clientY));
      } else {
        var hoveredNode := FindNodeAtPosition(nodes, x, y, transform);
        if hoveredNode.Some? {
          effect := HoverOn(Some(hoveredNode.value.node.id));
        } else {
          effect := HoverOn(None);
        }
      }
    }

    /** handleMouseUp: dragging stops. */
    method MouseUp()
      modifies this
      ensures !isDragging && dragStart == old(dragStart)
    {
      isDragging := false;
    }

    /** handleMouseLeave: dragging stops and the hover is cleared. */
    method MouseLeave() returns (hover: MoveEffect)
      modifies this
      ensures !isDragging && dragStart == old(dragStart)
      ensures hover == HoverOn(None)
    {
      isDragging := false;
      hover := HoverOn(None);
    }

    /** handleWheel: zoom about the cursor (no transform change when the canvas is not mounted). */
    method Wheel(rect: Option<Point>, deltaY: real, clientX: real, clientY: real, transform: ViewTransform)
      returns (next: Option<ViewTransform>)
      requires transform.scale != 0.0
      ensures rect.None? ==> next == None
      ensures rect.Some? ==> next == Some(Zoom(transform, deltaY, clientX - rect.value.x, clientY - rect.value.y))
    {
      if rect.None? {
        return None;
      }
      next := Some(Zoom(transform, deltaY, clientX - rect.value.x, clientY - rect.value.y));
    }
  }

  /** A press that hits nothing and a move then pan by exactly the pointer's motion, at the same scale. */
  method PressAndDrag(nodes: seq<CanvasNode>, rect: Point, downX: real, downY: real, clientX: real, clientY: real,
                      transform: ViewTransform)
    returns (clicked: Option<string>, effect: MoveEffect)
    requires transform.scale != 0.0
    ensures clicked.None? <==>
              !exists c :: c in nodes && c.visible
                && Hits(c, ToCanvas(downX - rect.x, transform.x, transform.scale), ToCanvas(downY - rect.y, transform.y, transform.scale))
    ensures clicked.None? ==>
              effect == PanTo(ViewTransform(transform.x + (clientX - downX), transform.y + (clientY - downY), transform.scale))
  {
    var canvas := new CanvasInteraction();
    clicked := canvas.MouseDown(nodes, Some(rect), downX, downY, transform);
    effect := canvas.MouseMove(nodes, Some(rect), clientX, clientY, transform);
    PressDecides(nodes, ToCanvas(downX - rect.x, transform.x, transform.scale), ToCanvas(downY - rect.y, transform.y, transform.scale),
                 downX - rect.x, downY - rect.y, downX, downY, transform);
  }

  // ---------------------------------------------------------------------
  // drawConnections: which edges are stroked
  // ---------------------------------------------------------------------

  /** One stroked edge, from the parent's centre to the child's. */
  datatype Segment = Segment(parent: CanvasNode, child: CanvasNode)

  /** The edge for a child: only when its parent id is truthy and the first visible node with that id exists. */
  function EdgeOf(vs: seq<CanvasNode>, c: CanvasNode): seq<Segment>
  {
    if Truthy(c.node.parentId) && IndexOf(vs, c.node.parentId.value) < |vs| then
      [Segment(vs[IndexOf(vs, c.node.parentId.value)], c)]
    else []
  }

  /** The edges for the children cs, in their order, looked up in the visible list vs. */
  function Edges(vs: seq<CanvasNode>, cs: seq<CanvasNode>): seq<Segment>
  {
    if cs == [] then [] else Edges(vs, cs[..|cs| - 1]) + EdgeOf(vs, cs[|cs| - 1])
  }

  /** The edges drawConnections strokes for the visible list. */
  function Connections(vs: seq<CanvasNode>): seq<Segment>
  {
    Edges(vs, vs)
  }

  /** An edge links a child of cs with a truthy parent id to the first node of vs carrying that id. */
  predicate EdgeSound(vs: seq<CanvasNode>, cs: seq<CanvasNode>, e: Segment)
  {
    && e.child in cs
    && e.parent in vs
    && Truthy(e.child.node.parentId)
    && e.parent.node.id == e.child.node.parentId.value
    && e.parent == vs[IndexOf(vs, e.child.node.parentId.value)]
  }

  lemma {:induction false} EdgesSound(vs: seq<CanvasNode>, cs: seq<CanvasNode>)
    ensures forall e :: e in Edges(vs, cs) ==> EdgeSound(vs, cs, e)
  {
    if cs != [] {
      var init := cs[..|cs| - 1];
      EdgesSound(vs, init);
      assert cs == init + [cs[|cs| - 1]];
      forall e | e in Edges(vs, cs) ensures EdgeSound(vs, cs, e) {
        if e in Edges(vs, init) {
          assert e.child in init;
        }
      }
    }
  }

  lemma {:induction false} EdgesComplete(vs: seq<CanvasNode>, cs: seq<CanvasNode>, k: nat)
    requires k < |cs| && Truthy(cs[k].node.parentId) && IndexOf(vs, cs[k].node.parentId.value) < |vs|
    ensures Segment(vs[IndexOf(vs, cs[k].node.parentId.value)], cs[k]) in Edges(vs, cs)
  {
    var init := cs[..|cs| - 1];
    if k < |init| {
      assert init[k] == cs[k];
      EdgesComplete(vs, init, k);
    }
  }

  /**
   * An edge is drawn for a visible node exactly when its parent id is truthy
   * and a visible node has that id; it runs from the first such node, as
   * Array.find picks it.
   */
  lemma ConnectionsCorrect(vs: seq<CanvasNode>)
    ensures forall e :: e in Connections(vs) ==> EdgeSound(vs, vs, e)
    ensures forall k :: 0 <= k < |vs| && Truthy(vs[k].node.parentId) && (exists j :: 0 <= j < |vs| && vs[j].node.id == vs[k].node.parentId.value) ==>
              Segment(vs[IndexOf(vs, vs[k].node.parentId.value)], vs[k]) in Connections(vs)
  {
    EdgesSound(vs, vs);
    forall k | 0 <= k < |vs| && Truthy(vs[k].node.parentId) && (exists j :: 0 <= j < |vs| && vs[j].node.id == vs[k].node.parentId.value)
      ensures Segment(vs[IndexOf(vs, vs[k].node.parentId.value)], vs[k]) in Connections(vs)
    {
      var j :| 0 <= j < |vs| && vs[j].node.id == vs[k].node.parentId.value;
      assert IndexOf(vs, vs[k].node.parentId.value) <= j;
      EdgesComplete(vs, vs, k);
    }
  }

  /** drawConnections: one pass over the visible nodes, stroking each child's edge. */
  method DrawConnections(visibleNodes: seq<CanvasNode>) returns (strokes: seq<Segment>)
    ensures strokes == Connections(visibleNodes)
  {
    strokes := [];
    for i := 0 to |visibleNodes|
      invariant strokes == Edges(visibleNodes, visibleNodes[..i])
    {
      assert visibleNodes[..i + 1][..i] == visibleNodes[..i];
      var node := visibleNodes[i];
      if Truthy(node.node.parentId) {
        var k := 0;
        while k < |visibleNodes| && visibleNodes[k].node.id != node.node.parentId.value
          invariant k <= |visibleNodes|
          invariant forall j :: 0 <= j < k ==> visibleNodes[j].node.id != node.node.parentId.value
        {
          k := k + 1;
        }
        IndexOfIs(visibleNodes, node.node.parentId.value, k);
        if k < |visibleNodes| {
          strokes := strokes + [Segment(visibleNodes[k], node)];
        }
      }
    }
    assert visibleNodes[..|visibleNodes|] == visibleNodes;
  }
}
