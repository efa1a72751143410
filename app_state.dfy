// The state of the App component of src/App.tsx: the flat record list, the
// positioned nodes, the selection and hover, the editor, the view transform
// and the canvas size, with the handlers that reassign them. The canvas'
// drag state is the CanvasInteraction it owns.
//
// What comes from outside is passed in: the fetched record list (None when
// the fetch or the parse fails), the window size, the trigonometry of the
// layout, the generated id and the timestamp of a new record.
module App {
  import opened Types
  import opened TreeBuilder
  import opened RadialLayout
  import opened ViewMath
  import opened SpatialQuery
  import opened Canvas
  import opened RecordEdits
  import opened TreeShape

  /** Width of the sidebar subtracted from the window width. */
  const SidebarWidth: real := 384.0
  /** Height of the toolbar subtracted from the window height. */
  const ToolbarHeight: real := 72.0

  /**
   * buildNodeTree followed by calculateNodePositions: nothing when every
   * record has a parent, otherwise the last parentless record at the centre
   * first, then the records of the pruned tree, all of them visible.
   */
  function LaidOut(trig: Trig, records: seq<MindmapNode>, width: real, height: real): (r: seq<CanvasNode>)
    requires UniqueIds(records)
    ensures r == [] <==> forall i :: 0 <= i < |records| ==> records[i].parentId.Some?
    ensures r != [] ==> r[0].node == records[LastRootIndex(records)] && r[0].x == Center(width) && r[0].y == Center(height)
    ensures r != [] ==> BuildTree(records).Some? && Records(r) == Pruned(BuildTree(records).value)
    ensures forall k :: 0 <= k < |r| ==> r[k].visible
  {
    var tree := BuildTree(records);
    if tree.None? then []
    else
      BuildTreeReady(records);
      LayoutVisible(trig, tree.value, width, height);
      Layout(trig, tree, width, height)
  }

  /** recalculateLayout's two calls: build the tree, then position it. */
  method PositionNodes(trig: Trig, records: seq<MindmapNode>, width: real, height: real) returns (positioned: seq<CanvasNode>)
    requires UniqueIds(records)
    ensures positioned == LaidOut(trig, records, width, height)
  {
    var tree := BuildNodeTree(records);
    if tree.Some? {
      BuildTreeReady(records);
    }
    positioned := CalculateNodePositions(trig, tree, width, height);
  }

  class MindmapApp {
    var rawNodes: seq<MindmapNode>
    var nodes: seq<CanvasNode>
    var selectedNodeId: Option<string>
    var hoveredNodeId: Option<string>
    var editingNode: Option<MindmapNode>
    var isEditorOpen: bool
    var transform: ViewTransform
    var canvasWidth: real
    var canvasHeight: real
    var canvas: CanvasInteraction

    /** The zoom stays within its bounds and the record ids are unique. */
    ghost predicate Valid()
      reads this
    {
      MinScale <= transform.scale <= MaxScale && UniqueIds(rawNodes)
    }

    /** The initial state: nothing loaded, nothing selected, the editor closed, the identity transform, a 1200 x 800 canvas. */
    constructor ()
      ensures Valid()
      ensures rawNodes == [] && nodes == [] && selectedNodeId == None && hoveredNodeId == None
      ensures editingNode == None && !isEditorOpen && transform == Identity
      ensures canvasWidth == 1200.0 && canvasHeight == 800.0
      ensures !canvas.isDragging
    {
      rawNodes := [];
      nodes := [];
      selectedNodeId := None;
      hoveredNodeId := None;
      editingNode := None;
      isEditorOpen := false;
      transform := Identity;
      canvasWidth := 1200.0;
      canvasHeight := 800.0;
      canvas := new CanvasInteraction();
    }

    /** loadNodesFromJSON: the fetched list replaces the records; a failed fetch changes nothing. */
    method LoadNodes(data: Option<seq<MindmapNode>>)
      requires Valid() && (data.Some? ==> UniqueIds(data.value))
      modifies this
      ensures Valid()
      ensures rawNodes == (if data.Some? then data.value else old(rawNodes))
      ensures nodes == old(nodes) && selectedNodeId == old(selectedNodeId) && transform == old(transform)
      ensures canvasWidth == old(canvasWidth) && canvasHeight == old(canvasHeight) && canvas == old(canvas)
      ensures hoveredNodeId == old(hoveredNodeId) && editingNode == old(editingNode) && isEditorOpen == old(isEditorOpen)
    {
      if data.Some? {
        rawNodes := data.value;
      }
    }

    /** updateCanvasSize: the window less the sidebar's width and the toolbar's height. */
    method UpdateCanvasSize(innerWidth: real, innerHeight: real)
      requires Valid()
      modifies this
      ensures Valid()
      ensures canvasWidth == innerWidth - SidebarWidth && canvasHeight == innerHeight - ToolbarHeight
      ensures rawNodes == old(rawNodes) && nodes == old(nodes) && selectedNodeId == old(selectedNodeId)
      ensures transform == old(transform) && canvas == old(canvas)
      ensures hoveredNodeId == old(hoveredNodeId) && editingNode == old(editingNode) && isEditorOpen == old(isEditorOpen)
    {
      canvasWidth := innerWidth - SidebarWidth;
      canvasHeight := innerHeight - ToolbarHeight;
    }

    /**
     * The layout effect and recalculateLayout: with records present, the
     * positioned nodes become the layout of the built tree for the current
     * canvas size; with none, they are left as they were.
     */
    method RecalculateLayout(trig: Trig)
      requires Valid()
      modifies this
      ensures Valid()
      ensures nodes == if |rawNodes| > 0 then LaidOut(trig, rawNodes, canvasWidth, canvasHeight) else old(nodes)
      ensures rawNodes == old(rawNodes) && selectedNodeId == old(selectedNodeId) && transform == old(transform)
      ensures canvasWidth == old(canvasWidth) && canvasHeight == old(canvasHeight) && canvas == old(canvas)
      ensures hoveredNodeId == old(hoveredNodeId) && editingNode == old(editingNode) && isEditorOpen == old(isEditorOpen)
    {
      if |rawNodes| > 0 {
        var positioned := PositionNodes(trig, rawNodes, canvasWidth, canvasHeight);
        nodes := positioned;
      }
    }

    /** The record the sidebar shows: the first record with the selected id, or none. */
    function SelectedNode(): (r: Option<MindmapNode>)
      reads this
      ensures r.Some? ==> selectedNodeId == Some(r.value.id) && r.value in rawNodes
      ensures r.None? <==> forall i :: 0 <= i < |rawNodes| ==> Some(rawNodes[i].id) != selectedNodeId
    {
      FindById(rawNodes, selectedNodeId)
    }

    /** handleNodeClick: the clicked id becomes the selection. */
    method NodeClick(nodeId: string)
      requires Valid()
      modifies this
      ensures Valid()
      ensures selectedNodeId == Some(nodeId)
      ensures rawNodes == old(rawNodes) && nodes == old(nodes) && transform == old(transform)
      ensures canvasWidth == old(canvasWidth) && canvasHeight == old(canvasHeight) && canvas == old(canvas)
      ensures hoveredNodeId == old(hoveredNodeId) && editingNode == old(editingNode) && isEditorOpen == old(isEditorOpen)
    {
      selectedNodeId := Some(nodeId);
    }

    /** handleExpandAll: every record expanded. */
    method ExpandAllNodes()
      requires Valid()
      modifies this
      ensures Valid()
      ensures rawNodes == ExpandAll(old(rawNodes))
      ensures nodes == old(nodes) && selectedNodeId == old(selectedNodeId) && transform == old(transform)
      ensures canvasWidth == old(canvasWidth) && canvasHeight == old(canvasHeight) && canvas == old(canvas)
      ensures hoveredNodeId == old(hoveredNodeId) && editingNode == old(editingNode) && isEditorOpen == old(isEditorOpen)
    {
      OnlyCollapsedKeepsIds(rawNodes, ExpandAll(rawNodes));
      rawNodes := ExpandAll(rawNodes);
    }

    /** handleCollapseAll: every record below level 0 collapsed. */
    method CollapseAllNodes()
      requires Valid()
      modifies this
      ensures Valid()
      ensures rawNodes == CollapseAll(old(rawNodes))
      ensures nodes == old(nodes) && selectedNodeId == old(selectedNodeId) && transform == old(transform)
      ensures canvasWidth == old(canvasWidth) && canvasHeight == old(canvasHeight) && canvas == old(canvas)
      ensures hoveredNodeId == old(hoveredNodeId) && editingNode == old(editingNode) && isEditorOpen == old(isEditorOpen)
    {
      OnlyCollapsedKeepsIds(rawNodes, CollapseAll(rawNodes));
      rawNodes := CollapseAll(rawNodes);
    }

    /** handleDrillDown: only the selection and its children stay expanded; nothing happens without a selection. */
    method DrillDownSelected()
      requires Valid()
      modifies this
      ensures Valid()
      ensures rawNodes == DrillDown(old(rawNodes), selectedNodeId)
      ensures nodes == old(nodes) && selectedNodeId == old(selectedNodeId) && transform == old(transform)
      ensures canvasWidth == old(canvasWidth) && canvasHeight == old(canvasHeight) && canvas == old(canvas)
      ensures hoveredNodeId == old(hoveredNodeId) && editingNode == old(editingNode) && isEditorOpen == old(isEditorOpen)
    {
      if !Truthy(selectedNodeId) {
        return;
      }
      OnlyCollapsedKeepsIds(rawNodes, DrillDown(rawNodes, selectedNodeId));
      rawNodes := DrillDown(rawNodes, selectedNodeId);
    }

    /**
     * handleDrillUp: when the selected record has a parent id, the record with
     * that id is expanded and becomes the selection, and the newly selected
     * record (when there is one) is expanded; otherwise nothing changes.
     */
    method DrillUpSelected()
      requires Valid()
      modifies this
      ensures Valid()
      ensures rawNodes == DrillUp(old(rawNodes), old(selectedNodeId))
      ensures selectedNodeId == DrillUpSelection(old(rawNodes), old(selectedNodeId))
      ensures CanDrillUp(old(rawNodes), old(selectedNodeId)) && SelectedNode().Some? ==> !SelectedNode().value.isCollapsed
      ensures nodes == old(nodes) && transform == old(transform)
      ensures canvasWidth == old(canvasWidth) && canvasHeight == old(canvasHeight) && canvas == old(canvas)
      ensures hoveredNodeId == old(hoveredNodeId) && editingNode == old(editingNode) && isEditorOpen == old(isEditorOpen)
    {
      var selectedNode := FindById(rawNodes, selectedNodeId);
      if selectedNode.None? || !Truthy(selectedNode.value.parentId) {
        assert !CanDrillUp(rawNodes, selectedNodeId);
        return;
      }
      DrillUpExpandsParent(rawNodes, selectedNodeId);
      OnlyCollapsedKeepsIds(rawNodes, DrillUp(rawNodes, selectedNodeId));
      var updated := DrillUp(rawNodes, selectedNodeId);
      var parent := DrillUpSelection(rawNodes, selectedNodeId);
      rawNodes := updated;
      selectedNodeId := parent;
    }

    /** handleFitView: back to the identity transform. */
    method FitView()
      requires Valid()
      modifies this
      ensures Valid()
      ensures transform == Identity
      ensures rawNodes == old(rawNodes) && nodes == old(nodes) && selectedNodeId == old(selectedNodeId)
      ensures canvasWidth == old(canvasWidth) && canvasHeight == old(canvasHeight) && canvas == old(canvas)
      ensures hoveredNodeId == old(hoveredNodeId) && editingNode == old(editingNode) && isEditorOpen == old(isEditorOpen)
    {
      transform := Identity;
    }

    /** handleAddNode: the editor opens with no record to edit. */
    method AddNode()
      requires Valid()
      modifies this
      ensures Valid()
      ensures editingNode == None && isEditorOpen
      ensures rawNodes == old(rawNodes) && nodes == old(nodes) && selectedNodeId == old(selectedNodeId)
      ensures transform == old(transform) && hoveredNodeId == old(hoveredNodeId)
      ensures canvasWidth == old(canvasWidth) && canvasHeight == old(canvasHeight) && canvas == old(canvas)
    {
      editingNode := None;
      isEditorOpen := true;
    }

    /** handleEditNode: the editor opens on the given record. */
    method EditNode(node: MindmapNode)
      requires Valid()
      modifies this
      ensures Valid()
      ensures editingNode == Some(node) && isEditorOpen
      ensures rawNodes == old(rawNodes) && nodes == old(nodes) && selectedNodeId == old(selectedNodeId)
      ensures transform == old(transform) && hoveredNodeId == old(hoveredNodeId)
      ensures canvasWidth == old(canvasWidth) && canvasHeight == old(canvasHeight) && canvas == old(canvas)
    {
      editingNode := Some(node);
      isEditorOpen := true;
    }

    /** The editor's onClose: it closes, keeping the record it was editing. */
    method CloseEditor()
      requires Valid()
      modifies this
      ensures Valid()
      ensures !isEditorOpen && editingNode == old(editingNode)
      ensures rawNodes == old(rawNodes) && nodes == old(nodes) && selectedNodeId == old(selectedNodeId)
      ensures transform == old(transform) && hoveredNodeId == old(hoveredNodeId)
      ensures canvasWidth == old(canvasWidth) && canvasHeight == old(canvasHeight) && canvas == old(canvas)
    {
      isEditorOpen := false;
    }

    /**
     * handleSaveNode: with a record being edited, the records with its id take
     * the form's fields; without one, a new record is appended (its id must be
     * fresh to keep ids unique). Either way the editor closes on no record.
     */
    method SaveNode(form: MindmapNode, newId: string, createdAt: string, updatedAt: string)
      requires Valid()
      requires editingNode.None? ==> forall i :: 0 <= i < |rawNodes| ==> rawNodes[i].id != newId
      modifies this
      ensures Valid()
      ensures old(editingNode).Some? ==> rawNodes == SaveEdit(old(rawNodes), old(editingNode).value.id, form)
      ensures old(editingNode).None? ==> rawNodes == SaveAdd(old(rawNodes), form, newId, createdAt, updatedAt)
      ensures !isEditorOpen && editingNode == None
      ensures nodes == old(nodes) && selectedNodeId == old(selectedNodeId)
      ensures transform == old(transform) && hoveredNodeId == old(hoveredNodeId)
      ensures canvasWidth == old(canvasWidth) && canvasHeight == old(canvasHeight) && canvas == old(canvas)
    {
      if editingNode.Some? {
        SaveEditKeepsIds(rawNodes, editingNode.value.id, form);
        rawNodes := SaveEdit(rawNodes, editingNode.value.id, form);
      } else {
        SaveAddKeepsUnique(rawNodes, form, newId, createdAt, updatedAt);
        rawNodes := SaveAdd(rawNodes, form, newId, createdAt, updatedAt);
      }
      isEditorOpen := false;
      editingNode := None;
    }

    // -------------------------------------------------------------------
    // The canvas' callbacks
    // -------------------------------------------------------------------

    /** A press on the canvas: a node under the pointer becomes the selection, otherwise a drag starts. */
    method PointerDown(rect: Option<Point>, clientX: real, clientY: real)
      requires Valid()
      modifies this, canvas
      ensures Valid()
      ensures rect.None? ==>
                selectedNodeId == old(selectedNodeId)
                && canvas.isDragging == old(canvas.isDragging) && canvas.dragStart == old(canvas.dragStart)
      ensures rect.Some? ==>
                match PressAt(nodes, clientX - rect.value.x, clientY - rect.value.y, clientX, clientY, transform)
                case Click(id) =>
                  selectedNodeId == Some(id)
                  && canvas.isDragging == old(canvas.isDragging) && canvas.dragStart == old(canvas.dragStart)
                case BeginDrag(start) => selectedNodeId == old(selectedNodeId) && canvas.isDragging && canvas.dragStart == start
      ensures rawNodes == old(rawNodes) && nodes == old(nodes) && transform == old(transform)
      ensures canvasWidth == old(canvasWidth) && canvasHeight == old(canvasHeight) && canvas == old(canvas)
      ensures hoveredNodeId == old(hoveredNodeId) && editingNode == old(editingNode) && isEditorOpen == old(isEditorOpen)
    {
      var clicked := canvas.MouseDown(nodes, rect, clientX, clientY, transform);
      if clicked.Some? {
        NodeClick(clicked.value);
      }
    }

    /** A pointer move: while dragging the pan follows the pointer at the same scale, otherwise the hover is updated. */
    method PointerMove(rect: Option<Point>, clientX: real, clientY: real)
      requires Valid()
      modifies this
      ensures Valid()
      ensures rect.Some? && canvas.isDragging ==>
                transform == ViewTransform(clientX - canvas.dragStart.x, clientY - canvas.dragStart.y, old(transform).scale)
                && hoveredNodeId == old(hoveredNodeId)
      ensures rect.Some? && !canvas.isDragging ==>
                transform == old(transform)
                && hoveredNodeId == HoverAt(nodes, ToCanvas(clientX - rect.value.x, transform.x, transform.scale),
                                            ToCanvas(clientY - rect.value.y, transform.y, transform.scale))
      ensures rect.None? ==> transform == old(transform) && hoveredNodeId == old(hoveredNodeId)
      ensures rawNodes == old(rawNodes) && nodes == old(nodes) && selectedNodeId == old(selectedNodeId)
      ensures canvasWidth == old(canvasWidth) && canvasHeight == old(canvasHeight) && canvas == old(canvas)
      ensures editingNode == old(editingNode) && isEditorOpen == old(isEditorOpen)
    {
      var effect := canvas.MouseMove(nodes, rect, clientX, clientY, transform);
      match effect
      case NoEffect =>
      case PanTo(t) => transform := t;
      case HoverOn(id) => hoveredNodeId := id;
    }

    /** Releasing the pointer ends the drag. */
    method PointerUp()
      requires Valid()
      modifies canvas
      ensures Valid()
      ensures !canvas.isDragging && canvas.dragStart == old(canvas.dragStart)
    {
      canvas.MouseUp();
    }

    /** The pointer leaving the canvas ends the drag and clears the hover. */
    method PointerLeave()
      requires Valid()
      modifies this, canvas
      ensures Valid()
      ensures !canvas.isDragging && canvas.dragStart == old(canvas.dragStart) && hoveredNodeId == None
      ensures rawNodes == old(rawNodes) && nodes == old(nodes) && selectedNodeId == old(selectedNodeId)
      ensures transform == old(transform) && canvas == old(canvas)
      ensures canvasWidth == old(canvasWidth) && canvasHeight == old(canvasHeight)
      ensures editingNode == old(editingNode) && isEditorOpen == old(isEditorOpen)
    {
      var effect := canvas.MouseLeave();
      hoveredNodeId := effect.id;
    }

    /** The wheel: zoom about the cursor, staying within the scale bounds. */
    method WheelAt(rect: Option<Point>, deltaY: real, clientX: real, clientY: real)
      requires Valid()
      modifies this
      ensures Valid()
      ensures rect.Some? ==> transform == Zoom(old(transform), deltaY, clientX - rect.value.x, clientY - rect.value.y)
      ensures rect.None? ==> transform == old(transform)
      ensures rawNodes == old(rawNodes) && nodes == old(nodes) && selectedNodeId == old(selectedNodeId)
      ensures canvasWidth == old(canvasWidth) && canvasHeight == old(canvasHeight) && canvas == old(canvas)
      ensures hoveredNodeId == old(hoveredNodeId) && editingNode == old(editingNode) && isEditorOpen == old(isEditorOpen)
    {
      var next := canvas.Wheel(rect, deltaY, clientX, clientY, transform);
      if next.Some? {
        ZoomInRange(transform, deltaY, clientX - rect.value.x, clientY - rect.value.y);
        transform := next.value;
      }
    }
  }
}
