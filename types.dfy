// Data model of src/types.ts: the flat node record, the tree node the
// builder produces, the positioned node the layout emits and the view
// transform of the canvas.
module Types {

  datatype Option<+T> = None | Some(value: T)

  /** The three size classes a node can have. */
  datatype Size = Small | Medium | Large

  /** A node record as stored in the flat list (optional x/y/children left out). */
  datatype MindmapNode = MindmapNode(
    id: string,
    title: string,
    summary: string,
    description: string,
    parentId: Option<string>,
    level: real,
    color: string,
    size: Size,
    orderIndex: real,
    isCollapsed: bool,
    createdAt: string,
    updatedAt: string)

  /** A record together with its owned, ordered children. */
  datatype TreeNode = TreeNode(node: MindmapNode, children: seq<TreeNode>)

  /**
   * A record placed on the canvas, with its disc radius and visibility flag.
   * The layout's object spread also copies the tree node's `children` array;
   * no reader of the layout uses it, so it is not a field here.
   */
  datatype CanvasNode = CanvasNode(node: MindmapNode, x: real, y: real, radius: nat, visible: bool)

  /** Pan offset and scale: screen = logical * scale + pan. */
  datatype ViewTransform = ViewTransform(x: real, y: real, scale: real)

  /** JavaScript truthiness of a `string | null`: null and "" are both false. */
  predicate Truthy(s: Option<string>)
  {
    s.Some? && s.value != ""
  }

  /** The ids of a record list, in order. */
  function Ids(s: seq<MindmapNode>): (r: seq<string>)
    ensures |r| == |s|
    ensures forall i :: 0 <= i < |s| ==> r[i] == s[i].id
  {
    if s == [] then [] else [s[0].id] + Ids(s[1..])
  }

  /** The set of ids of a record list. */
  function IdSet(s: seq<MindmapNode>): set<string>
  {
    set r | r in s :: r.id
  }

  /** No two records of the list share an id. */
  predicate UniqueIds(s: seq<MindmapNode>)
  {
    forall i, j :: 0 <= i < |s| && 0 <= j < |s| && s[i].id == s[j].id ==> i == j
  }

  /** The records of a sequence of tree nodes. */
  function Nodes(ts: seq<TreeNode>): (r: seq<MindmapNode>)
    ensures |r| == |ts|
    ensures forall i :: 0 <= i < |ts| ==> r[i] == ts[i].node
  {
    if ts == [] then [] else [ts[0].node] + Nodes(ts[1..])
  }

  /** Under unique ids, two different records of the list have different ids. */
  lemma DistinctRecordsDistinctIds(s: seq<MindmapNode>, a: MindmapNode, b: MindmapNode)
    requires UniqueIds(s) && a in s && b in s && a != b
    ensures a.id != b.id
  {
    var i :| 0 <= i < |s| && s[i] == a;
    var j :| 0 <= j < |s| && s[j] == b;
  }
}
