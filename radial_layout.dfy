// The radial layout of src/utils/layout.ts: calculateNodeRadius,
// calculateNodePositions with its recursive positionNode, and the
// visibility walk isAnyParentCollapsed.
//
// Angles are kept in units of pi (the angle a stands for a*pi radians), so
// the span formulas are exact rationals; cosine and sine stay uninterpreted
// and are passed in as a Trig value.
module RadialLayout {
  import opened Types
  import opened Sequences

  /** Cosine and sine of an angle given in units of pi. */
  datatype Trig = Trig(cos: real -> real, sin: real -> real)

  /** Distance from a parent's ring to its children's ring. */
  const RingStep: real := 200.0

  /** The disc radius of each size class. */
  function NodeRadius(size: Size): (r: nat)
    ensures size == Small ==> r == 50
    ensures size == Medium ==> r == 80
    ensures size == Large ==> r == 120
  {
    match size
    case Small => 50
    case Medium => 80
    case Large => 120
  }

  /** The angular span shared by the children of a node at `level`: 2 pi at the root, pi/(1 + level/2) below it. */
  function AngleSpan(level: nat): (span: real)
    ensures level == 0 ==> span == 2.0
    ensures 0.0 < span <= 2.0
  {
    if level == 0 then 2.0 else 1.0 / (1.0 + level as real * 0.5)
  }

  /** The middle of a canvas side: where the root is placed. */
  function Center(side: real): real
  {
    side / 2.0
  }

  /** The children's ring lies RingStep beyond the parent's. */
  function NextRadius(radius: real): real
  {
    radius + RingStep
  }

  /** The span is centred on the parent's angle. */
  function StartAngle(angle: real, span: real): real
  {
    angle - span / 2.0
  }

  /** The angle of child `i` of `n`: the span is cut into n + 1 equal parts and child i sits at the end of part i. */
  function ChildAngle(start: real, span: real, i: nat, n: nat): real
  {
    start + span * (i + 1) as real / (n + 1) as real
  }

  /** Every child angle lies strictly inside the span, and the angles increase with the child's index. */
  lemma ChildAnglesInside(start: real, span: real, i: nat, n: nat)
    requires i < n && 0.0 < span
    ensures start < ChildAngle(start, span, i, n) < start + span
    ensures i + 1 < n ==> ChildAngle(start, span, i, n) < ChildAngle(start, span, i + 1, n)
  {
    var d := (n + 1) as real;
    assert span * (i + 1) as real < span * d;
    assert span * (i + 1) as real < span * (i + 2) as real;
  }

  /** The point at angle `a` on the circle of radius `r` around the parent's x (resp. y). */
  function RingX(trig: Trig, x: real, a: real, r: real): real
  {
    x + trig.cos(a) * r
  }

  function RingY(trig: Trig, y: real, a: real, r: real): real
  {
    y + trig.sin(a) * r
  }

  // ---------------------------------------------------------------------
  // The output list and the parent walk over it
  // ---------------------------------------------------------------------

  /** Array.prototype.find by id, as an index: the first match, or |all| when there is none. */
  function IndexOf(all: seq<CanvasNode>, id: string): (k: nat)
    ensures k <= |all|
    ensures k < |all| ==> all[k].node.id == id
    ensures forall j :: 0 <= j < k ==> all[j].node.id != id
  {
    if all == [] then 0
    else
      var k := IndexOf(all[..|all| - 1], id);
      if k < |all| - 1 then k
      else if all[|all| - 1].node.id == id then |all| - 1
      else |all|
  }

  /** The ids already placed. */
  function Placed(all: seq<CanvasNode>): set<string>
  {
    if all == [] then {} else Placed(all[..|all| - 1]) + {all[|all| - 1].node.id}
  }

  /** The (truthy) parent ids the placed nodes refer to. */
  function Refs(all: seq<CanvasNode>): set<string>
  {
    if all == [] then {} else Refs(all[..|all| - 1]) + ParentRef(all[|all| - 1].node)
  }

  /** The truthy parent id of a record, as a set. */
  function ParentRef(n: MindmapNode): set<string>
  {
    if Truthy(n.parentId) then {n.parentId.value} else {}
  }

  /** The node at position j finds its parent id, if at all, at an earlier position. */
  ghost predicate ParentOk(all: seq<CanvasNode>, j: int)
    requires 0 <= j < |all|
  {
    Truthy(all[j].node.parentId) ==>
      IndexOf(all, all[j].node.parentId.value) < j || IndexOf(all, all[j].node.parentId.value) == |all|
  }

  /**
   * Every placed node whose parent id is found in the list finds it at an
   * earlier position.  This is what makes the parent walk terminate.
   */
  ghost predicate ParentsBefore(all: seq<CanvasNode>)
  {
    forall j :: 0 <= j < |all| ==> ParentOk(all, j)
  }

  /**
   * isAnyParentCollapsed: follow parent ids through the list; true as soon as
   * a found ancestor is collapsed, false at a falsy or unknown parent id.
   * `bound` is the position of the node the walk started from.
   */
  function Walk(all: seq<CanvasNode>, pid: Option<string>, bound: nat): (r: bool)
    requires ParentsBefore(all) && bound <= |all|
    requires Truthy(pid) ==> IndexOf(all, pid.value) < bound || IndexOf(all, pid.value) == |all|
    ensures !Truthy(pid) ==> !r
    ensures r ==> exists j :: 0 <= j < bound && all[j].node.isCollapsed
    decreases bound
  {
    if !Truthy(pid) then false
    else
      var j := IndexOf(all, pid.value);
      if j == |all| then false
      else if all[j].node.isCollapsed then true
      else
        assert ParentOk(all, j);
        Walk(all, all[j].node.parentId, j)
  }

  /**
   * The positions reached by following parent ids from `pid` through `all`,
   * each looked up with `find`: chain[0] is where `pid` is found, and every
   * later position is where the parent id of the one before is found.
   */
  ghost predicate ParentChain(all: seq<CanvasNode>, pid: Option<string>, chain: seq<nat>)
  {
    && |chain| > 0
    && (forall k :: 0 <= k < |chain| ==> chain[k] < |all|)
    && Truthy(pid) && chain[0] == IndexOf(all, pid.value)
    && (forall k :: 0 <= k < |chain| - 1 ==>
          Truthy(all[chain[k]].node.parentId) && chain[k + 1] == IndexOf(all, all[chain[k]].node.parentId.value))
  }

  /** Some ancestor reached from `pid` by parent ids is collapsed. */
  ghost predicate CollapsedAncestor(all: seq<CanvasNode>, pid: Option<string>)
  {
    exists chain :: ParentChain(all, pid, chain) && all[chain[|chain| - 1]].node.isCollapsed
  }

  /** The walk answers true exactly when some ancestor reached through the list is collapsed. */
  lemma {:induction false} WalkCollapsedAncestor(all: seq<CanvasNode>, pid: Option<string>, bound: nat)
    requires ParentsBefore(all) && bound <= |all|
    requires Truthy(pid) ==> IndexOf(all, pid.value) < bound || IndexOf(all, pid.value) == |all|
    ensures Walk(all, pid, bound) <==> CollapsedAncestor(all, pid)
    decreases bound
  {
    if Truthy(pid) {
      var j := IndexOf(all, pid.value);
      if j < |all| {
        if all[j].node.isCollapsed {
          assert ParentChain(all, pid, [j]);
        } else {
          assert ParentOk(all, j);
          var q := all[j].node.parentId;
          WalkCollapsedAncestor(all, q, j);
          if Walk(all, pid, bound) {
            var c :| ParentChain(all, q, c) && all[c[|c| - 1]].node.isCollapsed;
            ChainCons(all, pid, j, c);
          }
          if CollapsedAncestor(all, pid) {
            var chain :| ParentChain(all, pid, chain) && all[chain[|chain| - 1]].node.isCollapsed;
            ChainTail(all, pid, chain);
          }
        }
      }
    }
  }

  /** A chain from the parent of the node found for `pid`, with that node in front, is a chain from `pid`. */
  lemma ChainCons(all: seq<CanvasNode>, pid: Option<string>, j: nat, c: seq<nat>)
    requires Truthy(pid) && j == IndexOf(all, pid.value) && j < |all|
    requires ParentChain(all, all[j].node.parentId, c)
    ensures ParentChain(all, pid, [j] + c)
    ensures ([j] + c)[|c|] == c[|c| - 1]
  {
    var chain := [j] + c;
    forall k | 0 <= k < |chain| - 1
      ensures Truthy(all[chain[k]].node.parentId) && chain[k + 1] == IndexOf(all, all[chain[k]].node.parentId.value)
    {
      if k > 0 {
        assert chain[k] == c[k - 1] && chain[k + 1] == c[k];
      }
    }
  }

  /** A chain from `pid` whose first node is not collapsed continues as a chain from that node's parent id. */
  lemma ChainTail(all: seq<CanvasNode>, pid: Option<string>, chain: seq<nat>)
    requires ParentChain(all, pid, chain) && all[chain[|chain| - 1]].node.isCollapsed
    requires !all[chain[0]].node.isCollapsed
    ensures |chain| > 1 && ParentChain(all, all[chain[0]].node.parentId, chain[1..])
    ensures CollapsedAncestor(all, all[chain[0]].node.parentId)
  {
    var c := chain[1..];
    forall k | 0 <= k < |c| - 1
      ensures Truthy(all[c[k]].node.parentId) && c[k + 1] == IndexOf(all, all[c[k]].node.parentId.value)
    {
      assert c[k] == chain[k + 1] && c[k + 1] == chain[k + 2];
    }
    assert c[|c| - 1] == chain[|chain| - 1];
  }

  // ---------------------------------------------------------------------
  // Trees the traversal accepts
  // ---------------------------------------------------------------------

  /** Every child names its parent's id as parent, all the way down. */
  ghost predicate Linked(t: TreeNode)
    decreases t
  {
    forall i :: 0 <= i < |t.children| ==> t.children[i].node.parentId == Some(t.node.id) && Linked(t.children[i])
  }

  /** The ids of a whole tree. */
  function TreeIds(t: TreeNode): set<string>
    decreases t, 1
  {
    {t.node.id} + ForestIds(t, 0)
  }

  /** The ids of the subtrees of children i, i+1, ... of `parent`. */
  function ForestIds(parent: TreeNode, i: nat): set<string>
    decreases parent, 0, |parent.children| - i
  {
    if i >= |parent.children| then {}
    else TreeIds(parent.children[i]) + ForestIds(parent, i + 1)
  }

  /** No id occurs twice in the tree. */
  ghost predicate DistinctTree(t: TreeNode)
    decreases t, 1
  {
    t.node.id !in ForestIds(t, 0) && DistinctFrom(t, 0)
  }

  /** The subtrees of children i, i+1, ... have distinct ids and share none. */
  ghost predicate DistinctFrom(parent: TreeNode, i: nat)
    decreases parent, 0, |parent.children| - i
  {
    i < |parent.children| ==>
      && DistinctTree(parent.children[i])
      && TreeIds(parent.children[i]) !! ForestIds(parent, i + 1)
      && DistinctFrom(parent, i + 1)
  }

  /**
   * What placing `t` after `acc` needs: the walk terminates on `acc`, the tree
   * is linked with distinct ids none of which is placed or referred to yet,
   * and the parent id of `t` is placed already or is not an id of `t`.
   */
  ghost predicate Ready(acc: seq<CanvasNode>, t: TreeNode)
  {
    && ParentsBefore(acc)
    && Linked(t)
    && DistinctTree(t)
    && TreeIds(t) !! (Placed(acc) + Refs(acc))
    && (Truthy(t.node.parentId) ==> t.node.parentId.value in Placed(acc) || t.node.parentId.value !in TreeIds(t))
  }

  /** What placing children i, i+1, ... of `parent` after `acc` needs. */
  ghost predicate ChildrenReady(acc: seq<CanvasNode>, parent: TreeNode, i: nat)
  {
    && ParentsBefore(acc)
    && Linked(parent)
    && DistinctFrom(parent, i)
    && parent.node.id in Placed(acc)
    && ForestIds(parent, i) !! (Placed(acc) + Refs(acc))
  }

  // ---------------------------------------------------------------------
  // positionNode as a function of the list built so far
  // ---------------------------------------------------------------------

  /** The node positionNode pushes for `n`: its visibility is the negated walk over the list so far. */
  function Entry(n: MindmapNode, x: real, y: real, acc: seq<CanvasNode>): CanvasNode
    requires ParentsBefore(acc)
  {
    CanvasNode(n, x, y, NodeRadius(n.size), !Walk(acc, n.parentId, |acc|))
  }

  /**
   * positionNode(t, x, y, angle, radius, level) run after `acc` was pushed:
   * push `t`, then, unless it is collapsed, place its children on the next
   * ring, spread over the span of its level around `angle`.
   */
  function Place(trig: Trig, t: TreeNode, x: real, y: real, angle: real, radius: real, level: nat,
                 acc: seq<CanvasNode>): (r: seq<CanvasNode>)
    requires Ready(acc, t)
    ensures |acc| < |r| && r[..|acc|] == acc
    ensures r[|acc|] == Entry(t.node, x, y, acc)
    ensures ParentsBefore(r)
    ensures Placed(r) <= Placed(acc) + TreeIds(t)
    ensures Refs(r) <= Refs(acc) + TreeIds(t) + ParentRef(t.node)
    ensures Records(r) == Records(acc) + Pruned(t)
    decreases t, 1
  {
    var acc1 := acc + [Entry(t.node, x, y, acc)];
    PushEntry(acc, t, x, y);
    PushRecord(acc, Entry(t.node, x, y, acc));
    if |t.children| > 0 && !t.node.isCollapsed then
      var span := AngleSpan(level);
      var r := PlaceChildren(trig, t, 0, x, y, StartAngle(angle, span), span, NextRadius(radius), level + 1, acc1);
      PrefixOfPrefix(acc, acc1, r);
      Regroup(Records(acc) + Pruned(t), Records(acc1), Records(acc), [t.node], PrunedFrom(t, 0));
      r
    else
      PrunedLeaf(t);
      acc1
  }

  /** The forEach over the children of `parent`, from child i on, each placed after the ones before it. */
  function PlaceChildren(trig: Trig, parent: TreeNode, i: nat, x: real, y: real, start: real, span: real,
                         nextRadius: real, level: nat, acc: seq<CanvasNode>): (r: seq<CanvasNode>)
    requires ChildrenReady(acc, parent, i)
    ensures |acc| <= |r| && r[..|acc|] == acc
    ensures ParentsBefore(r)
    ensures Placed(r) <= Placed(acc) + ForestIds(parent, i)
    ensures Refs(r) <= Refs(acc) + ForestIds(parent, i) + {parent.node.id}
    ensures Records(r) == Records(acc) + PrunedFrom(parent, i)
    decreases parent, 0, |parent.children| - i
  {
    if i >= |parent.children| then
      EmptyRight(Records(acc), PrunedFrom(parent, i));
      acc
    else
      var child := parent.children[i];
      var a := ChildAngle(start, span, i, |parent.children|);
      ChildReady(acc, parent, i);
      var acc2 := Place(trig, child, RingX(trig, x, a, nextRadius), RingY(trig, y, a, nextRadius), a, nextRadius, level, acc);
      NextChildReady(acc, parent, i, acc2);
      var r := PlaceChildren(trig, parent, i + 1, x, y, start, span, nextRadius, level, acc2);
      PrefixOfPrefix(acc, acc2, r);
      Regroup(Records(acc) + PrunedFrom(parent, i), Records(acc2), Records(acc), Pruned(child), PrunedFrom(parent, i + 1));
      r
  }

  // ---------------------------------------------------------------------
  // Lemmas the traversal's well-formedness rests on
  // ---------------------------------------------------------------------

  /** IndexOf is characterised by its contract. */
  lemma IndexOfIs(all: seq<CanvasNode>, id: string, k: nat)
    requires k <= |all| && (k < |all| ==> all[k].node.id == id)
    requires forall j :: 0 <= j < k ==> all[j].node.id != id
    ensures IndexOf(all, id) == k
  {
  }

  lemma {:induction false} IndexOfFound(all: seq<CanvasNode>, id: string)
    ensures IndexOf(all, id) < |all| <==> id in Placed(all)
  {
    if all != [] {
      IndexOfFound(all[..|all| - 1], id);
    }
  }

  lemma IndexOfAppend(a: seq<CanvasNode>, b: seq<CanvasNode>, id: string)
    ensures IndexOf(a + b, id) == if IndexOf(a, id) < |a| then IndexOf(a, id) else |a| + IndexOf(b, id)
  {
    var k := if IndexOf(a, id) < |a| then IndexOf(a, id) else |a| + IndexOf(b, id);
    var ab := a + b;
    if IndexOf(a, id) == |a| {
      forall j | |a| <= j < k ensures ab[j].node.id != id {
        assert ab[j] == b[j - |a|];
      }
      if k < |ab| {
        assert ab[k] == b[k - |a|];
      }
    }
    IndexOfIs(ab, id, k);
  }

  lemma PlacedSnoc(acc: seq<CanvasNode>, c: CanvasNode)
    ensures Placed(acc + [c]) == Placed(acc) + {c.node.id}
    ensures Refs(acc + [c]) == Refs(acc) + ParentRef(c.node)
  {
    assert (acc + [c])[..|acc|] == acc;
  }

  lemma {:induction false} PlacedAppend(acc: seq<CanvasNode>, more: seq<CanvasNode>)
    ensures Placed(acc + more) == Placed(acc) + Placed(more)
    ensures Refs(acc + more) == Refs(acc) + Refs(more)
    decreases |more|
  {
    if more == [] {
      assert acc + more == acc;
    } else {
      var init, last := more[..|more| - 1], more[|more| - 1];
      PlacedAppend(acc, init);
      assert acc + more == (acc + init) + [last];
      PlacedSnoc(acc + init, last);
      PlacedSnoc(init, last);
      assert init + [last] == more;
    }
  }

  lemma PlacedPrefix(acc: seq<CanvasNode>, r: seq<CanvasNode>)
    requires |acc| <= |r| && r[..|acc|] == acc
    ensures Placed(acc) <= Placed(r)
  {
    assert r == acc + r[|acc|..];
    PlacedAppend(acc, r[|acc|..]);
  }

  /** The node at position j contributes its id and its parent reference. */
  lemma {:induction false} PlacedAt(all: seq<CanvasNode>, j: nat)
    requires j < |all|
    ensures all[j].node.id in Placed(all)
    ensures ParentRef(all[j].node) <= Refs(all)
  {
    if j < |all| - 1 {
      PlacedAt(all[..|all| - 1], j);
    }
  }

  /** Pushing the entry of a fresh record keeps parents before their children. */
  lemma PushEntry(acc: seq<CanvasNode>, t: TreeNode, x: real, y: real)
    requires Ready(acc, t)
    ensures ParentsBefore(acc + [Entry(t.node, x, y, acc)])
    ensures Placed(acc + [Entry(t.node, x, y, acc)]) == Placed(acc) + {t.node.id}
    ensures Refs(acc + [Entry(t.node, x, y, acc)]) == Refs(acc) + ParentRef(t.node)
    ensures |t.children| > 0 && !t.node.isCollapsed ==> ChildrenReady(acc + [Entry(t.node, x, y, acc)], t, 0)
  {
    var c := Entry(t.node, x, y, acc);
    var acc1 := acc + [c];
    PlacedSnoc(acc, c);
    forall id ensures IndexOf(acc1, id) == if IndexOf(acc, id) < |acc| then IndexOf(acc, id)
                                           else if id == t.node.id then |acc| else |acc| + 1 {
      IndexOfAppend(acc, [c], id);
    }
    forall j | 0 <= j < |acc1| && Truthy(acc1[j].node.parentId) ensures ParentOk(acc1, j) {
      var p := acc1[j].node.parentId.value;
      if j < |acc| {
        assert ParentOk(acc, j);
        assert acc1[j] == acc[j];
        PlacedAt(acc, j);
      } else {
        IndexOfFound(acc, p);
      }
    }
  }

  lemma ChildReady(acc: seq<CanvasNode>, parent: TreeNode, i: nat)
    requires ChildrenReady(acc, parent, i) && i < |parent.children|
    ensures Ready(acc, parent.children[i])
  {
  }

  lemma NextChildReady(acc: seq<CanvasNode>, parent: TreeNode, i: nat, acc2: seq<CanvasNode>)
    requires ChildrenReady(acc, parent, i) && i < |parent.children|
    requires |acc| <= |acc2| && acc2[..|acc|] == acc && ParentsBefore(acc2)
    requires Placed(acc2) <= Placed(acc) + TreeIds(parent.children[i])
    requires Refs(acc2) <= Refs(acc) + TreeIds(parent.children[i]) + ParentRef(parent.children[i].node)
    ensures ChildrenReady(acc2, parent, i + 1)
  {
    PlacedPrefix(acc, acc2);
  }

  /** One unfolding of Place when the node's children are placed. */
  lemma PlaceStep(trig: Trig, t: TreeNode, x: real, y: real, angle: real, radius: real, level: nat,
                  acc: seq<CanvasNode>)
    requires Ready(acc, t) && |t.children| > 0 && !t.node.isCollapsed
    requires ChildrenReady(acc + [Entry(t.node, x, y, acc)], t, 0)
    ensures Place(trig, t, x, y, angle, radius, level, acc)
            == PlaceChildren(trig, t, 0, x, y, StartAngle(angle, AngleSpan(level)), AngleSpan(level), NextRadius(radius), level + 1,
                             acc + [Entry(t.node, x, y, acc)])
  {
  }

  /** One unfolding of PlaceChildren at child i. */
  lemma PlaceChildrenStep(trig: Trig, parent: TreeNode, i: nat, x: real, y: real, start: real, span: real,
                          nextRadius: real, level: nat, acc: seq<CanvasNode>)
    requires ChildrenReady(acc, parent, i) && i < |parent.children|
    ensures Ready(acc, parent.children[i])
    ensures ChildrenReady(Place(trig, parent.children[i], RingX(trig, x, ChildAngle(start, span, i, |parent.children|), nextRadius),
                                RingY(trig, y, ChildAngle(start, span, i, |parent.children|), nextRadius),
                                ChildAngle(start, span, i, |parent.children|), nextRadius, level, acc), parent, i + 1)
    ensures PlaceChildren(trig, parent, i, x, y, start, span, nextRadius, level, acc)
            == PlaceChildren(trig, parent, i + 1, x, y, start, span, nextRadius, level,
                             Place(trig, parent.children[i], RingX(trig, x, ChildAngle(start, span, i, |parent.children|), nextRadius),
                                   RingY(trig, y, ChildAngle(start, span, i, |parent.children|), nextRadius),
                                   ChildAngle(start, span, i, |parent.children|), nextRadius, level, acc))
  {
    ChildReady(acc, parent, i);
    var a := ChildAngle(start, span, i, |parent.children|);
    var acc2 := Place(trig, parent.children[i], RingX(trig, x, a, nextRadius), RingY(trig, y, a, nextRadius), a, nextRadius, level, acc);
    NextChildReady(acc, parent, i, acc2);
  }

  /**
   * Positions p < q of r hold what placing `c` at (x, y), with angle `a`,
   * ring radius `radius` and level `level`, pushes after r[..p].
   */
  ghost predicate PlacedBetween(trig: Trig, r: seq<CanvasNode>, p: int, q: int, c: TreeNode, x: real, y: real, a: real,
                                radius: real, level: nat)
  {
    0 <= p < q <= |r| && Ready(r[..p], c) && r[..q] == Place(trig, c, x, y, a, radius, level, r[..p])
  }

  /** The first entry of a placed stretch is the node itself at (x, y). */
  lemma PlacedBetweenEntry(trig: Trig, r: seq<CanvasNode>, p: int, q: int, c: TreeNode, x: real, y: real, a: real,
                           radius: real, level: nat)
    requires PlacedBetween(trig, r, p, q, c, x, y, a, radius, level)
    ensures r[p].node == c.node && r[p].x == x && r[p].y == y && r[p].radius == NodeRadius(c.node.size)
  {
    assert r[p] == r[..q][p];
  }

  /**
   * Some stretch of r from position `from` on holds child j of `parent`,
   * placed at the ring point of angle ChildAngle(start, span, j, n) with ring
   * radius `nextRadius` and level `level`.
   */
  ghost predicate ChildPlaced(trig: Trig, r: seq<CanvasNode>, from: int, parent: TreeNode, j: nat, x: real, y: real,
                              start: real, span: real, nextRadius: real, level: nat)
    requires j < |parent.children|
  {
    var a := ChildAngle(start, span, j, |parent.children|);
    exists p, q :: from <= p &&
      PlacedBetween(trig, r, p, q, parent.children[j], RingX(trig, x, a, nextRadius), RingY(trig, y, a, nextRadius), a, nextRadius, level)
  }

  /** Every child j from i on is placed after `acc`. */
  lemma {:induction false} ChildrenPlaced(trig: Trig, parent: TreeNode, i: nat, x: real, y: real, start: real, span: real,
                                          nextRadius: real, level: nat, acc: seq<CanvasNode>)
    requires ChildrenReady(acc, parent, i)
    ensures forall j :: i <= j < |parent.children| ==>
              ChildPlaced(trig, PlaceChildren(trig, parent, i, x, y, start, span, nextRadius, level, acc), |acc|,
                          parent, j, x, y, start, span, nextRadius, level)
    decreases |parent.children| - i
  {
    if i < |parent.children| {
      var n := |parent.children|;
      var child := parent.children[i];
      var a := ChildAngle(start, span, i, n);
      PlaceChildrenStep(trig, parent, i, x, y, start, span, nextRadius, level, acc);
      var acc2 := Place(trig, child, RingX(trig, x, a, nextRadius), RingY(trig, y, a, nextRadius), a, nextRadius, level, acc);
      var r := PlaceChildren(trig, parent, i + 1, x, y, start, span, nextRadius, level, acc2);
      assert PlaceChildren(trig, parent, i, x, y, start, span, nextRadius, level, acc) == r;
      ChildrenPlaced(trig, parent, i + 1, x, y, start, span, nextRadius, level, acc2);
      FirstChildPlaced(trig, parent, i, x, y, start, span, nextRadius, level, acc, acc2, r);
      forall j | i < j < n ensures ChildPlaced(trig, r, |acc|, parent, j, x, y, start, span, nextRadius, level) {
        LaterChildPlaced(trig, r, |acc|, |acc2|, parent, j, x, y, start, span, nextRadius, level);
      }
    }
  }

  /** Child i sits right after `acc` once the later children are placed behind it. */
  lemma FirstChildPlaced(trig: Trig, parent: TreeNode, i: nat, x: real, y: real, start: real, span: real,
                         nextRadius: real, level: nat, acc: seq<CanvasNode>, acc2: seq<CanvasNode>, r: seq<CanvasNode>)
    requires i < |parent.children| && Ready(acc, parent.children[i])
    requires acc2 == Place(trig, parent.children[i], RingX(trig, x, ChildAngle(start, span, i, |parent.children|), nextRadius),
                           RingY(trig, y, ChildAngle(start, span, i, |parent.children|), nextRadius),
                           ChildAngle(start, span, i, |parent.children|), nextRadius, level, acc)
    requires |acc2| <= |r| && r[..|acc2|] == acc2
    ensures ChildPlaced(trig, r, |acc|, parent, i, x, y, start, span, nextRadius, level)
  {
    var a := ChildAngle(start, span, i, |parent.children|);
    assert r[..|acc|] == acc2[..|acc|] == acc;
    assert PlacedBetween(trig, r, |acc|, |acc2|, parent.children[i], RingX(trig, x, a, nextRadius), RingY(trig, y, a, nextRadius),
                         a, nextRadius, level);
  }

  /** A child placed from a later position on is placed from an earlier one too. */
  lemma LaterChildPlaced(trig: Trig, r: seq<CanvasNode>, from: int, later: int, parent: TreeNode, j: nat, x: real, y: real,
                         start: real, span: real, nextRadius: real, level: nat)
    requires j < |parent.children| && from <= later
    requires ChildPlaced(trig, r, later, parent, j, x, y, start, span, nextRadius, level)
    ensures ChildPlaced(trig, r, from, parent, j, x, y, start, span, nextRadius, level)
  {
  }

  /**
   * Below an expanded node, each child j is placed after the node's own entry,
   * on the ring NextRadius(radius) away, at angle
   * ChildAngle(StartAngle(angle, span), span, j, n) of the level's span, and
   * with level + 1.
   */
  lemma PlaceChildEntries(trig: Trig, t: TreeNode, x: real, y: real, angle: real, radius: real, level: nat,
                          acc: seq<CanvasNode>)
    requires Ready(acc, t) && |t.children| > 0 && !t.node.isCollapsed
    ensures var from, childLevel := |acc| + 1, level + 1;
            forall j :: 0 <= j < |t.children| ==>
              ChildPlaced(trig, Place(trig, t, x, y, angle, radius, level, acc), from, t, j, x, y,
                          StartAngle(angle, AngleSpan(level)), AngleSpan(level), NextRadius(radius), childLevel)
  {
    var acc1 := acc + [Entry(t.node, x, y, acc)];
    PushEntry(acc, t, x, y);
    PlaceStep(trig, t, x, y, angle, radius, level, acc);
    ChildrenPlaced(trig, t, 0, x, y, StartAngle(angle, AngleSpan(level)), AngleSpan(level), NextRadius(radius), level + 1, acc1);
  }

  // ---------------------------------------------------------------------
  // The imperative traversal
  // ---------------------------------------------------------------------

  /** The shared `nodes` array positionNode pushes into. */
  class Placement {
    var nodes: seq<CanvasNode>

    constructor ()
      ensures nodes == []
    {
      nodes := [];
    }

    /** positionNode: push the node, then recurse into each child on the next ring. */
    method PositionNode(trig: Trig, t: TreeNode, x: real, y: real, angle: real, radius: real, level: nat)
      requires Ready(nodes, t)
      modifies this
      ensures nodes == Place(trig, t, x, y, angle, radius, level, old(nodes))
      decreases t, 1
    {
      ghost var acc := nodes;
      var nodeRadius := NodeRadius(t.node.size);
      var visible := !Walk(nodes, t.node.parentId, |nodes|);
      PushEntry(nodes, t, x, y);
      nodes := nodes + [CanvasNode(t.node, x, y, nodeRadius, visible)];
      assert nodes == acc + [Entry(t.node, x, y, acc)];
      if |t.children| > 0 && !t.node.isCollapsed {
        var childCount := |t.children|;
        var nextRadius := NextRadius(radius);
        var angleSpan := AngleSpan(level);
        var startAngle := StartAngle(angle, angleSpan);
        PlaceStep(trig, t, x, y, angle, radius, level, acc);
        for index := 0 to childCount
          invariant ChildrenReady(nodes, t, index)
          invariant PlaceChildren(trig, t, index, x, y, startAngle, angleSpan, nextRadius, level + 1, nodes)
                    == Place(trig, t, x, y, angle, radius, level, acc)
        {
          var child := t.children[index];
          var childAngle := ChildAngle(startAngle, angleSpan, index, childCount);
          var childX := RingX(trig, x, childAngle, nextRadius);
          var childY := RingY(trig, y, childAngle, nextRadius);
          PlaceChildrenStep(trig, t, index, x, y, startAngle, angleSpan, nextRadius, level + 1, nodes);
          PositionNode(trig, child, childX, childY, childAngle, nextRadius, level + 1);
        }
      }
    }
  }

  // ---------------------------------------------------------------------
  // calculateNodePositions
  // ---------------------------------------------------------------------

  /** The list calculateNodePositions returns: empty for no root, else positionNode from the canvas centre. */
  function Layout(trig: Trig, root: Option<TreeNode>, width: real, height: real): (r: seq<CanvasNode>)
    requires root.Some? ==> Ready([], root.value)
    ensures root.None? <==> r == []
    ensures root.Some? ==> r[0] == CanvasNode(root.value.node, Center(width), Center(height), NodeRadius(root.value.node.size), true)
    ensures root.Some? ==> Records(r) == Pruned(root.value)
  {
    if root.None? then []
    else
      EmptyLeft(Records([]), Pruned(root.value));
      Place(trig, root.value, Center(width), Center(height), 0.0, 0.0, 0, [])
  }

  method CalculateNodePositions(trig: Trig, root: Option<TreeNode>, canvasWidth: real, canvasHeight: real)
    returns (nodes: seq<CanvasNode>)
    requires root.Some? ==> Ready([], root.value)
    ensures nodes == Layout(trig, root, canvasWidth, canvasHeight)
  {
    if root.None? {
      return [];
    }
    var centerX := Center(canvasWidth);
    var centerY := Center(canvasHeight);
    var placement := new Placement();
    placement.PositionNode(trig, root.value, centerX, centerY, 0.0, 0.0, 0);
    nodes := placement.nodes;
  }

  // ---------------------------------------------------------------------
  // Order and pruning
  // ---------------------------------------------------------------------

  /** The records of a placed list, in order. */
  function Records(s: seq<CanvasNode>): (r: seq<MindmapNode>)
    ensures |r| == |s|
  {
    if s == [] then [] else Records(s[..|s| - 1]) + [s[|s| - 1].node]
  }

  /** Pre-order over the tree, stopping below collapsed nodes (a collapsed node itself is kept). */
  function Pruned(t: TreeNode): seq<MindmapNode>
    decreases t, 1
  {
    if t.node.isCollapsed then [t.node] else [t.node] + PrunedFrom(t, 0)
  }

  function PrunedFrom(parent: TreeNode, i: nat): seq<MindmapNode>
    decreases parent, 0, |parent.children| - i
  {
    if i >= |parent.children| then [] else Pruned(parent.children[i]) + PrunedFrom(parent, i + 1)
  }

  /** Pushing one entry adds its record at the end. */
  lemma PushRecord(acc: seq<CanvasNode>, e: CanvasNode)
    ensures Records(acc + [e]) == Records(acc) + [e.node]
  {
    assert (acc + [e])[..|acc|] == acc;
  }

  /** A leaf, or a node whose children stay hidden, contributes only itself. */
  lemma PrunedLeaf(t: TreeNode)
    requires |t.children| == 0 || t.node.isCollapsed
    ensures Pruned(t) == [t.node]
  {
    if !t.node.isCollapsed {
      assert PrunedFrom(t, 0) == [];
    }
  }

  // ---------------------------------------------------------------------
  // Visibility
  // ---------------------------------------------------------------------

  /** The walk's result does not depend on the bound, only on the list. */
  lemma WalkBound(all: seq<CanvasNode>, pid: Option<string>, b1: nat, b2: nat)
    requires ParentsBefore(all) && b1 <= |all| && b2 <= |all|
    requires Truthy(pid) ==> IndexOf(all, pid.value) < b1 || IndexOf(all, pid.value) == |all|
    requires Truthy(pid) ==> IndexOf(all, pid.value) < b2 || IndexOf(all, pid.value) == |all|
    ensures Walk(all, pid, b1) == Walk(all, pid, b2)
  {
  }

  /**
   * Appending nodes whose ids the list neither holds nor refers to leaves
   * every walk over the list unchanged.
   */
  lemma {:induction false} WalkExtend(acc: seq<CanvasNode>, more: seq<CanvasNode>, pid: Option<string>, b: nat)
    requires ParentsBefore(acc) && ParentsBefore(acc + more) && b <= |acc|
    requires Truthy(pid) ==> IndexOf(acc, pid.value) < b || IndexOf(acc, pid.value) == |acc|
    requires Truthy(pid) ==> IndexOf(acc + more, pid.value) < b || IndexOf(acc + more, pid.value) == |acc + more|
    requires Truthy(pid) ==> pid.value in Placed(acc) || pid.value !in Placed(more)
    requires (Refs(acc) - Placed(acc)) !! Placed(more)
    ensures Walk(acc + more, pid, b) == Walk(acc, pid, b)
    decreases b
  {
    if Truthy(pid) {
      var j := IndexOf(acc, pid.value);
      IndexOfAppend(acc, more, pid.value);
      IndexOfFound(acc, pid.value);
      if j < |acc| {
        assert (acc + more)[j] == acc[j];
        var next := acc[j].node.parentId;
        if !acc[j].node.isCollapsed && Truthy(next) {
          PlacedAt(acc, j);
          assert ParentOk(acc, j);
          IndexOfAppend(acc, more, next.value);
          IndexOfFound(acc, next.value);
          IndexOfFound(more, next.value);
        }
        if !acc[j].node.isCollapsed {
          WalkExtend(acc, more, next, j);
        }
      } else {
        IndexOfFound(more, pid.value);
      }
    }
  }

  /** Every entry from position n on is marked visible. */
  ghost predicate VisibleFrom(s: seq<CanvasNode>, n: nat)
  {
    forall k :: n <= k < |s| ==> s[k].visible
  }

  lemma VisibleJoin(p: seq<CanvasNode>, r: seq<CanvasNode>, n: nat)
    requires |p| <= |r| && r[..|p|] == p
    requires VisibleFrom(p, n) && VisibleFrom(r, |p|)
    ensures VisibleFrom(r, n)
  {
    forall k | n <= k < |p| ensures r[k].visible {
      assert r[k] == r[..|p|][k];
    }
  }

  /**
   * A node whose parent chain is open comes out visible, and so does
   * everything placed below it: children are only placed below nodes that
   * are not collapsed, so no walk from them meets a collapsed ancestor.
   */
  lemma {:induction false} PlaceVisible(trig: Trig, t: TreeNode, x: real, y: real, angle: real, radius: real, level: nat,
                                        acc: seq<CanvasNode>)
    requires Ready(acc, t) && !Walk(acc, t.node.parentId, |acc|)
    ensures VisibleFrom(Place(trig, t, x, y, angle, radius, level, acc), |acc|)
    decreases t, 1
  {
    var e := Entry(t.node, x, y, acc);
    var acc1 := acc + [e];
    PushEntry(acc, t, x, y);
    assert VisibleFrom(acc1, |acc|);
    if |t.children| > 0 && !t.node.isCollapsed {
      var span := AngleSpan(level);
      ParentEntryClear(acc, t, x, y);
      PlaceStep(trig, t, x, y, angle, radius, level, acc);
      PlaceChildrenVisible(trig, t, 0, x, y, StartAngle(angle, span), span, NextRadius(radius), level + 1, acc1);
      VisibleJoin(acc1, Place(trig, t, x, y, angle, radius, level, acc), |acc|);
    }
  }

  /** Right after `t` is pushed, a walk from one of its children finds `t` open and continues above it. */
  lemma ParentEntryClear(acc: seq<CanvasNode>, t: TreeNode, x: real, y: real)
    requires Ready(acc, t) && !Walk(acc, t.node.parentId, |acc|) && !t.node.isCollapsed
    requires ParentsBefore(acc + [Entry(t.node, x, y, acc)])
    ensures !Walk(acc + [Entry(t.node, x, y, acc)], Some(t.node.id), |acc| + 1)
  {
    var e := Entry(t.node, x, y, acc);
    var acc1 := acc + [e];
    var pid := t.node.parentId;
    if t.node.id != "" {
      assert t.node.id in TreeIds(t);
      IndexOfFound(acc, t.node.id);
      IndexOfAppend(acc, [e], t.node.id);
      assert acc1[|acc|] == e;
      WalkStep(acc1, t.node.id, |acc| + 1);
      if Truthy(pid) {
        IndexOfAppend(acc, [e], pid.value);
        IndexOfFound(acc, pid.value);
      }
      assert Placed([e]) == {t.node.id};
      WalkExtend(acc, [e], pid, |acc|);
    }
  }

  /** One step of the walk: an open node found before the bound passes the walk on to its own parent. */
  lemma WalkStep(all: seq<CanvasNode>, id: string, b: nat)
    requires ParentsBefore(all) && b <= |all| && id != "" && IndexOf(all, id) < b
    requires !all[IndexOf(all, id)].node.isCollapsed
    ensures ParentOk(all, IndexOf(all, id))
    ensures Walk(all, Some(id), b) == Walk(all, all[IndexOf(all, id)].node.parentId, IndexOf(all, id))
  {
    assert ParentOk(all, IndexOf(all, id));
  }

  lemma {:induction false} PlaceChildrenVisible(trig: Trig, parent: TreeNode, i: nat, x: real, y: real, start: real, span: real,
                                                nextRadius: real, level: nat, acc: seq<CanvasNode>)
    requires ChildrenReady(acc, parent, i) && !Walk(acc, Some(parent.node.id), |acc|)
    ensures VisibleFrom(PlaceChildren(trig, parent, i, x, y, start, span, nextRadius, level, acc), |acc|)
    decreases parent, 0, |parent.children| - i
  {
    if i < |parent.children| {
      var child := parent.children[i];
      var a := ChildAngle(start, span, i, |parent.children|);
      PlaceChildrenStep(trig, parent, i, x, y, start, span, nextRadius, level, acc);
      var acc2 := Place(trig, child, RingX(trig, x, a, nextRadius), RingY(trig, y, a, nextRadius), a, nextRadius, level, acc);
      PlaceVisible(trig, child, RingX(trig, x, a, nextRadius), RingY(trig, y, a, nextRadius), a, nextRadius, level, acc);
      StillClear(acc, acc2, parent, i);
      PlaceChildrenVisible(trig, parent, i + 1, x, y, start, span, nextRadius, level, acc2);
      VisibleJoin(acc2, PlaceChildren(trig, parent, i + 1, x, y, start, span, nextRadius, level, acc2), |acc|);
    }
  }

  /** Placing child i leaves the walk from the parent's id unchanged. */
  lemma StillClear(acc: seq<CanvasNode>, acc2: seq<CanvasNode>, parent: TreeNode, i: nat)
    requires ChildrenReady(acc, parent, i) && i < |parent.children| && !Walk(acc, Some(parent.node.id), |acc|)
    requires |acc| <= |acc2| && acc2[..|acc|] == acc && ParentsBefore(acc2)
    requires Placed(acc2) <= Placed(acc) + TreeIds(parent.children[i])
    requires Refs(acc2) <= Refs(acc) + TreeIds(parent.children[i]) + ParentRef(parent.children[i].node)
    ensures !Walk(acc2, Some(parent.node.id), |acc2|)
  {
    var more := acc2[|acc|..];
    assert acc2 == acc + more;
    PlacedAppend(acc, more);
    assert ForestIds(parent, i) == TreeIds(parent.children[i]) + ForestIds(parent, i + 1);
    var id := parent.node.id;
    IndexOfFound(acc, id);
    IndexOfAppend(acc, more, id);
    WalkBound(acc2, Some(id), |acc2|, |acc|);
    WalkExtend(acc, more, Some(id), |acc|);
  }

  /** Every node of the layout of a root without a parent is visible. */
  lemma LayoutVisible(trig: Trig, root: TreeNode, width: real, height: real)
    requires Ready([], root)
    ensures forall k :: 0 <= k < |Layout(trig, Some(root), width, height)| ==> Layout(trig, Some(root), width, height)[k].visible
  {
    PlaceVisible(trig, root, Center(width), Center(height), 0.0, 0.0, 0, []);
  }
}
