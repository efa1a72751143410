// getVisibleNodes and findNodeAtPosition of src/utils/layout.ts, with the
// pan-and-scale mapping the canvas draws through (src/components/MindmapCanvas.tsx).
module SpatialQuery {
  import opened Types
  import opened Sequences

  /** getVisibleNodes: the positioned nodes whose visibility flag is set, in list order. */
  function VisibleNodes(nodes: seq<CanvasNode>): (r: seq<CanvasNode>)
    ensures |r| <= |nodes|
  {
    if nodes == [] then []
    else
      var init, last := nodes[..|nodes| - 1], nodes[|nodes| - 1];
      VisibleNodes(init) + (if last.visible then [last] else [])
  }

  /** A node is kept exactly when it is in the list and visible. */
  lemma {:induction false} VisibleMembers(nodes: seq<CanvasNode>)
    ensures forall c :: c in VisibleNodes(nodes) <==> c in nodes && c.visible
  {
    if nodes != [] {
      var init, last := nodes[..|nodes| - 1], nodes[|nodes| - 1];
      VisibleMembers(init);
      assert nodes == init + [last];
    }
  }

  /** The filter keeps list order: filtering a concatenation concatenates the filtered parts. */
  lemma {:induction false} VisibleAppend(a: seq<CanvasNode>, b: seq<CanvasNode>)
    ensures VisibleNodes(a + b) == VisibleNodes(a) + VisibleNodes(b)
    decreases |b|
  {
    if b == [] {
      assert a + b == a;
    } else {
      var init, last := b[..|b| - 1], b[|b| - 1];
      VisibleAppend(a, init);
      assert (a + b)[..|a + b| - 1] == a + init;
      assert (a + b)[|a + b| - 1] == last;
      Regroup(VisibleNodes(a + b), VisibleNodes(a) + VisibleNodes(init), VisibleNodes(a), VisibleNodes(init),
              if last.visible then [last] else []);
    }
  }

  /** When every node is visible the filter returns the list itself. */
  lemma {:induction false} VisibleAll(nodes: seq<CanvasNode>)
    requires forall k :: 0 <= k < |nodes| ==> nodes[k].visible
    ensures VisibleNodes(nodes) == nodes
  {
    if nodes != [] {
      var init := nodes[..|nodes| - 1];
      VisibleAll(init);
      assert nodes == init + [nodes[|nodes| - 1]];
    }
  }

  // ---------------------------------------------------------------------
  // The view transform
  // ---------------------------------------------------------------------

  /** Where a logical coordinate is drawn: translated by the pan, then scaled. */
  function ToScreen(q: real, pan: real, scale: real): real
  {
    pan + q * scale
  }

  /** The logical coordinate under a screen coordinate: the inverse of ToScreen. */
  function ToCanvas(p: real, pan: real, scale: real): real
    requires scale != 0.0
  {
    (p - pan) / scale
  }

  /** Mapping to the screen and back, or back and to the screen, is the identity. */
  lemma CanvasRoundTrip(q: real, p: real, pan: real, scale: real)
    requires scale != 0.0
    ensures ToCanvas(ToScreen(q, pan, scale), pan, scale) == q
    ensures ToScreen(ToCanvas(p, pan, scale), pan, scale) == p
  {
    assert (pan + q * scale - pan) / scale == q * scale / scale;
    assert pan + (p - pan) / scale * scale == pan + (p - pan);
  }

  // ---------------------------------------------------------------------
  // Hit testing
  // ---------------------------------------------------------------------

  /** A coordinate difference squared (the hit test compares squares instead of taking a root). */
  function Square(v: real): real
  {
    v * v
  }

  /** The point lies on the node's disc (squared distance against squared radius). */
  predicate Hits(c: CanvasNode, cx: real, cy: real)
  {
    Square(cx - c.x) + Square(cy - c.y) <= Square(c.radius as real)
  }

  /** The last of vs[..n] whose disc holds the point, if any. */
  function HitBefore(vs: seq<CanvasNode>, cx: real, cy: real, n: nat): Option<CanvasNode>
    requires n <= |vs|
  {
    if n == 0 then None
    else if Hits(vs[n - 1], cx, cy) then Some(vs[n - 1])
    else HitBefore(vs, cx, cy, n - 1)
  }

  /** The last visible node whose disc holds the logical point (cx, cy), if any. */
  function NodeAt(nodes: seq<CanvasNode>, cx: real, cy: real): Option<CanvasNode>
  {
    var vs := VisibleNodes(nodes);
    HitBefore(vs, cx, cy, |vs|)
  }

  /** HitBefore finds a hit exactly when there is one, and no hit comes after the one it finds. */
  lemma {:induction false} HitBeforeCorrect(vs: seq<CanvasNode>, cx: real, cy: real, n: nat)
    requires n <= |vs|
    ensures HitBefore(vs, cx, cy, n).None? <==> forall j :: 0 <= j < n ==> !Hits(vs[j], cx, cy)
    ensures HitBefore(vs, cx, cy, n).Some? ==>
              exists i :: 0 <= i < n && vs[i] == HitBefore(vs, cx, cy, n).value && Hits(vs[i], cx, cy)
                          && forall j :: i < j < n ==> !Hits(vs[j], cx, cy)
  {
    if n > 0 && !Hits(vs[n - 1], cx, cy) {
      HitBeforeCorrect(vs, cx, cy, n - 1);
    }
  }

  /**
   * findNodeAtPosition yields no node exactly when no visible node's disc holds
   * the logical point (cx, cy); otherwise a visible node of the list whose disc holds it,
   * with no later visible node holding it (the topmost drawn node wins).
   */
  lemma NodeAtCorrect(nodes: seq<CanvasNode>, cx: real, cy: real)
    ensures NodeAt(nodes, cx, cy).None? <==> forall c :: c in nodes && c.visible ==> !Hits(c, cx, cy)
    ensures NodeAt(nodes, cx, cy).Some? ==>
              && NodeAt(nodes, cx, cy).value in nodes
              && NodeAt(nodes, cx, cy).value.visible
              && Hits(NodeAt(nodes, cx, cy).value, cx, cy)
              && exists i :: 0 <= i < |VisibleNodes(nodes)| && VisibleNodes(nodes)[i] == NodeAt(nodes, cx, cy).value
                             && forall j :: i < j < |VisibleNodes(nodes)| ==> !Hits(VisibleNodes(nodes)[j], cx, cy)
  {
    var vs := VisibleNodes(nodes);
    HitBeforeCorrect(vs, cx, cy, |vs|);
    VisibleMembers(nodes);
    if NodeAt(nodes, cx, cy).None? {
      forall c | c in nodes && c.visible ensures !Hits(c, cx, cy) {
        var j :| 0 <= j < |vs| && vs[j] == c;
      }
    } else {
      var i :| 0 <= i < |vs| && vs[i] == NodeAt(nodes, cx, cy).value;
      assert vs[i] in vs;
    }
  }

  /** findNodeAtPosition: map the point to logical coordinates, then scan the visible nodes from the last one down. */
  method FindNodeAtPosition(nodes: seq<CanvasNode>, x: real, y: real, transform: ViewTransform)
    returns (found: Option<CanvasNode>)
    requires transform.scale != 0.0
    ensures found == NodeAt(nodes, ToCanvas(x, transform.x, transform.scale), ToCanvas(y, transform.y, transform.scale))
  {
    var canvasX := ToCanvas(x, transform.x, transform.scale);
    var canvasY := ToCanvas(y, transform.y, transform.scale);
    var visibleNodes := VisibleNodes(nodes);
    var i := |visibleNodes| - 1;
    while i >= 0
      invariant -1 <= i < |visibleNodes|
      invariant HitBefore(visibleNodes, canvasX, canvasY, i + 1) == HitBefore(visibleNodes, canvasX, canvasY, |visibleNodes|)
      decreases i
    {
      var node := visibleNodes[i];
      var dx := canvasX - node.x;
      var dy := canvasY - node.y;
      if Square(dx) + Square(dy) <= Square(node.radius as real) {
        return Some(node);
      }
      i := i - 1;
    }
    return None;
  }
}
