// The pan-and-zoom arithmetic of src/components/MindmapCanvas.tsx: wheel
// zoom about the cursor, and the drag that moves the pan with the pointer.
module ViewMath {
  import opened Types
  import opened SpatialQuery

  const MinScale: real := 0.1
  const MaxScale: real := 3.0

  /** Wheel down zooms out by 10%, anything else zooms in by 10%. */
  function ZoomFactor(deltaY: real): real
  {
    if deltaY > 0.0 then 0.9 else 1.1
  }

  function Min(a: real, b: real): real
  {
    if a <= b then a else b
  }

  function Max(a: real, b: real): real
  {
    if a >= b then a else b
  }

  /** Math.max(0.1, Math.min(3, s)): the scale kept inside [MinScale, MaxScale]. */
  function ClampScale(s: real): (r: real)
    ensures MinScale <= r <= MaxScale
    ensures MinScale <= s <= MaxScale ==> r == s
    ensures s < MinScale ==> r == MinScale
    ensures s > MaxScale ==> r == MaxScale
  {
    Max(MinScale, Min(MaxScale, s))
  }

  /** The scale after one wheel step. */
  function ZoomedScale(scale: real, deltaY: real): real
  {
    ClampScale(scale * ZoomFactor(deltaY))
  }

  /** The pan that keeps screen coordinate `mouse` over the same logical point when the scale changes by `ratio`. */
  function AnchoredPan(mouse: real, pan: real, ratio: real): real
  {
    mouse - (mouse - pan) * ratio
  }

  /** handleWheel: the new transform for a wheel event at canvas position (mouseX, mouseY). */
  function Zoom(t: ViewTransform, deltaY: real, mouseX: real, mouseY: real): (r: ViewTransform)
    requires t.scale != 0.0
  {
    var newScale := ZoomedScale(t.scale, deltaY);
    var scaleRatio := newScale / t.scale;
    ViewTransform(AnchoredPan(mouseX, t.x, scaleRatio), AnchoredPan(mouseY, t.y, scaleRatio), newScale)
  }

  /** Whatever the old scale, a wheel step leaves the scale inside [MinScale, MaxScale]. */
  lemma ZoomInRange(t: ViewTransform, deltaY: real, mouseX: real, mouseY: real)
    requires t.scale != 0.0
    ensures MinScale <= Zoom(t, deltaY, mouseX, mouseY).scale <= MaxScale
    ensures Zoom(t, deltaY, mouseX, mouseY).scale == ClampScale(t.scale * ZoomFactor(deltaY))
  {
  }

  /** From a scale in range, wheel down never zooms in and wheel up never zooms out. */
  lemma ZoomDirection(t: ViewTransform, deltaY: real, mouseX: real, mouseY: real)
    requires MinScale <= t.scale <= MaxScale
    ensures deltaY > 0.0 ==> Zoom(t, deltaY, mouseX, mouseY).scale <= t.scale
    ensures deltaY <= 0.0 ==> Zoom(t, deltaY, mouseX, mouseY).scale >= t.scale
  {
  }

  /** One coordinate of the anchor: the logical coordinate under the cursor is the same before and after. */
  lemma AnchorKept(mouse: real, pan: real, scale: real, newScale: real)
    requires scale != 0.0 && newScale != 0.0
    ensures ToCanvas(mouse, AnchoredPan(mouse, pan, newScale / scale), newScale) == ToCanvas(mouse, pan, scale)
  {
    var ratio := newScale / scale;
    assert mouse - AnchoredPan(mouse, pan, ratio) == (mouse - pan) * ratio;
    assert (mouse - pan) * ratio / newScale == (mouse - pan) * (ratio / newScale);
    assert ratio / newScale == 1.0 / scale;
  }

  /** Zooming about the cursor: the logical point under the cursor does not move. */
  lemma ZoomKeepsAnchor(t: ViewTransform, deltaY: real, mouseX: real, mouseY: real)
    requires t.scale != 0.0
    ensures ToCanvas(mouseX, Zoom(t, deltaY, mouseX, mouseY).x, Zoom(t, deltaY, mouseX, mouseY).scale) == ToCanvas(mouseX, t.x, t.scale)
    ensures ToCanvas(mouseY, Zoom(t, deltaY, mouseX, mouseY).y, Zoom(t, deltaY, mouseX, mouseY).scale) == ToCanvas(mouseY, t.y, t.scale)
  {
    var newScale := ZoomedScale(t.scale, deltaY);
    AnchorKept(mouseX, t.x, t.scale, newScale);
    AnchorKept(mouseY, t.y, t.scale, newScale);
  }

  // ---------------------------------------------------------------------
  // Dragging
  // ---------------------------------------------------------------------

  /** A pair of client coordinates. */
  datatype Point = Point(x: real, y: real)

  /** The drag origin recorded on mousedown: the pointer minus the pan. */
  function DragStart(clientX: real, clientY: real, t: ViewTransform): Point
  {
    Point(clientX - t.x, clientY - t.y)
  }

  /** The transform while dragging: the pan is the pointer minus the drag origin, the scale is kept. */
  function DragTo(t: ViewTransform, start: Point, clientX: real, clientY: real): ViewTransform
  {
    t.(x := clientX - start.x, y := clientY - start.y)
  }

  /** The pan follows the pointer: it moves by exactly the pointer's motion since mousedown, and the scale stays. */
  lemma DragFollowsPointer(t: ViewTransform, downX: real, downY: real, clientX: real, clientY: real)
    ensures DragTo(t, DragStart(downX, downY, t), clientX, clientY)
            == ViewTransform(t.x + (clientX - downX), t.y + (clientY - downY), t.scale)
  {
  }

  /** Without pointer motion the transform is unchanged. */
  lemma DragNoMotion(t: ViewTransform, clientX: real, clientY: real)
    ensures DragTo(t, DragStart(clientX, clientY, t), clientX, clientY) == t
  {
  }

  /** The transform Fit View installs. */
  const Identity: ViewTransform := ViewTransform(0.0, 0.0, 1.0)
}
