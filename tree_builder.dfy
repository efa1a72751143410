// buildNodeTree and sortChildrenRecursively of src/utils/layout.ts: a flat,
// parent-referencing record list becomes one rooted tree whose child lists
// are sorted by order index.
module TreeBuilder {
  import opened Types
  import opened StableSort
  import opened Sequences

  /** The position of the record that becomes root: the last one whose parent id is null, or -1. */
  function LastRootIndex(records: seq<MindmapNode>): (k: int)
    ensures -1 <= k < |records|
    ensures k >= 0 ==> records[k].parentId.None?
    ensures forall j :: k < j < |records| ==> records[j].parentId.Some?
  {
    if records == [] then -1
    else if records[|records| - 1].parentId.None? then |records| - 1
    else LastRootIndex(records[..|records| - 1])
  }

  /** The record that becomes root, if any. */
  function LastRoot(records: seq<MindmapNode>): Option<MindmapNode>
  {
    var k := LastRootIndex(records);
    if k < 0 then None else Some(records[k])
  }

  /** The records naming `id` as their parent, in list order. */
  function ChildRecords(records: seq<MindmapNode>, id: string): (r: seq<MindmapNode>)
    ensures |r| <= |records|
  {
    if records == [] then []
    else
      var init, last := records[..|records| - 1], records[|records| - 1];
      ChildRecords(init, id) + (if last.parentId == Some(id) then [last] else [])
  }

  /** A record is in the child list of `id` exactly when it is in the input and names `id` as parent. */
  lemma {:induction false} ChildRecordsMembers(records: seq<MindmapNode>, id: string)
    ensures forall x :: x in ChildRecords(records, id) <==> x in records && x.parentId == Some(id)
  {
    if records != [] {
      var init, last := records[..|records| - 1], records[|records| - 1];
      ChildRecordsMembers(init, id);
      assert records == init + [last];
    }
  }

  lemma ChildRecordsSnoc(records: seq<MindmapNode>, i: nat, id: string)
    requires i < |records|
    ensures ChildRecords(records[..i + 1], id)
            == ChildRecords(records[..i], id) + (if records[i].parentId == Some(id) then [records[i]] else [])
  {
    assert records[..i + 1][..i] == records[..i];
  }

  lemma LastRootSnoc(records: seq<MindmapNode>, i: nat)
    requires i < |records|
    ensures LastRoot(records[..i + 1])
            == if records[i].parentId.None? then Some(records[i]) else LastRoot(records[..i])
  {
    assert records[..i + 1][..i] == records[..i];
    var k := LastRootIndex(records[..i]);
    assert k >= 0 ==> records[..i + 1][k] == records[..i][k];
  }

  /** One step of the linking pass keeps every child list equal to the filter of the prefix seen so far. */
  lemma LinkStep(records: seq<MindmapNode>, i: nat, before: map<string, seq<MindmapNode>>, after: map<string, seq<MindmapNode>>)
    requires i < |records|
    requires forall id :: id in before ==> before[id] == ChildRecords(records[..i], id)
    requires after == if records[i].parentId.Some? && records[i].parentId.value in before
                       then before[records[i].parentId.value := before[records[i].parentId.value] + [records[i]]]
                       else before
    ensures after.Keys == before.Keys
    ensures forall id :: id in after ==> after[id] == ChildRecords(records[..i + 1], id)
  {
    forall id | id in after
      ensures after[id] == ChildRecords(records[..i + 1], id)
    {
      ChildRecordsSnoc(records, i, id);
    }
  }

  /** The child lists as they stand after the linking pass: one per id in the map. */
  function ChildMap(records: seq<MindmapNode>): (m: map<string, seq<MindmapNode>>)
    ensures m.Keys == IdSet(records)
  {
    map id | id in IdSet(records) :: ChildRecords(records, id)
  }

  /**
   * The two passes of buildNodeTree: every id gets an empty child list, then
   * each record either becomes the root candidate (null parent) or is
   * appended to its parent's list when the parent id is in the map; a record
   * whose parent id is unknown is dropped.
   */
  method CollectChildren(records: seq<MindmapNode>) returns (root: Option<MindmapNode>, children: map<string, seq<MindmapNode>>)
    requires UniqueIds(records)
    ensures root == LastRoot(records)
    ensures children == ChildMap(records)
  {
    children := EmptyChildLists(records);
    root, children := LinkChildren(records, children);
  }

  /** The first pass: every record id is mapped to an empty child list. */
  method EmptyChildLists(records: seq<MindmapNode>) returns (children: map<string, seq<MindmapNode>>)
    ensures children.Keys == IdSet(records)
    ensures forall id :: id in children ==> children[id] == []
  {
    children := map[];
    var i := 0;
    while i < |records|
      invariant 0 <= i <= |records|
      invariant children.Keys == IdSet(records[..i])
      invariant forall id :: id in children ==> children[id] == []
    {
      children := children[records[i].id := []];
      assert records[..i + 1] == records[..i] + [records[i]];
      i := i + 1;
    }
    assert records[..|records|] == records;
  }

  /** The `nodeMap.forEach` pass: root candidate or append to the parent's list. */
  method LinkChildren(records: seq<MindmapNode>, empty: map<string, seq<MindmapNode>>)
    returns (root: Option<MindmapNode>, children: map<string, seq<MindmapNode>>)
    requires UniqueIds(records)
    requires empty.Keys == IdSet(records)
    requires forall id :: id in empty ==> empty[id] == []
    ensures root == LastRoot(records)
    ensures children == ChildMap(records)
  {
    children := empty;
    root := None;
    var i := 0;
    assert records[..0] == [];
    while i < |records|
      invariant 0 <= i <= |records|
      invariant LinkedUpTo(records, i, root, children)
    {
      ghost var root0, before := root, children;
      root, children := LinkOne(records[i], root, children);
      LinkAdvance(records, i, root0, before, root, children);
      i := i + 1;
    }
    assert records[..|records|] == records;
    ChildMapIs(records, children);
  }

  /** The linking loop's state after the first i records. */
  ghost predicate LinkedUpTo(records: seq<MindmapNode>, i: nat, root: Option<MindmapNode>, children: map<string, seq<MindmapNode>>)
    requires i <= |records|
  {
    && root == LastRoot(records[..i])
    && children.Keys == IdSet(records)
    && forall id :: id in children ==> children[id] == ChildRecords(records[..i], id)
  }

  /** One pass of the loop body takes the state after i records to the state after i + 1. */
  lemma LinkAdvance(records: seq<MindmapNode>, i: nat, root: Option<MindmapNode>, before: map<string, seq<MindmapNode>>,
                    root': Option<MindmapNode>, after: map<string, seq<MindmapNode>>)
    requires i < |records| && LinkedUpTo(records, i, root, before)
    requires root' == if records[i].parentId.None? then Some(records[i]) else root
    requires after == if records[i].parentId.Some? && records[i].parentId.value in before
                       then before[records[i].parentId.value := before[records[i].parentId.value] + [records[i]]]
                       else before
    ensures LinkedUpTo(records, i + 1, root', after)
  {
    LinkStep(records, i, before, after);
    LastRootSnoc(records, i);
  }

  /** A map with the record ids as keys and each id's child records as value is ChildMap. */
  lemma ChildMapIs(records: seq<MindmapNode>, children: map<string, seq<MindmapNode>>)
    requires children.Keys == IdSet(records)
    requires forall id :: id in children ==> children[id] == ChildRecords(records, id)
    ensures children == ChildMap(records)
  {
  }

  /** The body of the linking pass for one record. */
  method LinkOne(node: MindmapNode, root: Option<MindmapNode>, children: map<string, seq<MindmapNode>>)
    returns (root': Option<MindmapNode>, children': map<string, seq<MindmapNode>>)
    ensures root' == if node.parentId.None? then Some(node) else root
    ensures children' == if node.parentId.Some? && node.parentId.value in children
                         then children[node.parentId.value := children[node.parentId.value] + [node]]
                         else children
  {
    root', children' := root, children;
    if node.parentId.None? {
      root' := Some(node);
    } else if node.parentId.value in children {
      var p := node.parentId.value;
      children' := children[p := children[p] + [node]];
    }
  }

  /** The orphan rule: a record sits in some child list exactly when its parent id names a record of the list. */
  lemma {:induction false} ChildListMembership(records: seq<MindmapNode>, x: MindmapNode)
    requires x in records && x.parentId.Some?
    ensures (exists id :: id in ChildMap(records) && x in ChildMap(records)[id])
              <==> x.parentId.value in IdSet(records)
  {
    var m := ChildMap(records);
    forall id | id in m ensures x in m[id] ==> id == x.parentId.value {
      ChildRecordsMembers(records, id);
    }
    if x.parentId.value in IdSet(records) {
      ChildRecordsMembers(records, x.parentId.value);
      assert x in m[x.parentId.value];
    }
  }

  /** The ids of a chain of records. */
  function PathIds(path: seq<MindmapNode>): set<string>
  {
    set r | r in path :: r.id
  }

  /**
   * A chain of records of the list from a parentless record down to the last
   * element, each naming the previous one as parent, with no id repeated.
   */
  ghost predicate AncestorPath(records: seq<MindmapNode>, path: seq<MindmapNode>)
  {
    && |path| > 0
    && path[0].parentId.None?
    && (forall k :: 0 <= k < |path| ==> path[k] in records)
    && (forall k :: 0 < k < |path| ==> path[k].parentId == Some(path[k - 1].id))
    && (forall j, k :: 0 <= j < k < |path| ==> path[j].id != path[k].id)
  }

  /**
   * With unique ids, a child of the last record of an ancestor chain is never
   * on the chain already, so the reference graph seen from the root is a tree.
   */
  lemma ChildOffPath(records: seq<MindmapNode>, path: seq<MindmapNode>, c: MindmapNode)
    requires UniqueIds(records) && AncestorPath(records, path)
    requires c in records && c.parentId == Some(path[|path| - 1].id)
    ensures c.id !in PathIds(path)
    ensures AncestorPath(records, path + [c])
    ensures |IdSet(records) - PathIds(path + [c])| < |IdSet(records) - PathIds(path)|
  {
    NotOnPath(records, path, c);
    ExtendPath(records, path, c);
    assert c.id in IdSet(records);
    FewerOffPath(IdSet(records), PathIds(path), c.id);
    PathIdsSnoc(path, c);
  }

  lemma NotOnPath(records: seq<MindmapNode>, path: seq<MindmapNode>, c: MindmapNode)
    requires UniqueIds(records) && AncestorPath(records, path)
    requires c in records && c.parentId == Some(path[|path| - 1].id)
    ensures c.id !in PathIds(path)
  {
    forall j | 0 <= j < |path| ensures path[j].id != c.id {
      if j > 0 {
        assert path[j - 1].id != path[|path| - 1].id;
      }
      assert path[j] != c;
      DistinctRecordsDistinctIds(records, path[j], c);
    }
  }

  lemma ExtendPath(records: seq<MindmapNode>, path: seq<MindmapNode>, c: MindmapNode)
    requires AncestorPath(records, path) && c.id !in PathIds(path)
    requires c in records && c.parentId == Some(path[|path| - 1].id)
    ensures AncestorPath(records, path + [c])
  {
    var longer := path + [c];
    forall j, k | 0 <= j < k < |longer| ensures longer[j].id != longer[k].id {
      if k == |path| {
        assert longer[j] in path;
      }
    }
  }

  lemma PathIdsSnoc(path: seq<MindmapNode>, c: MindmapNode)
    ensures PathIds(path + [c]) == PathIds(path) + {c.id}
  {
    forall id | id in PathIds(path + [c]) ensures id in PathIds(path) + {c.id} {
      var r :| r in path + [c] && r.id == id;
      if r != c {
        assert r in path;
      }
    }
  }

  lemma FewerOffPath(all: set<string>, onPath: set<string>, x: string)
    requires x in all && x !in onPath
    ensures |all - (onPath + {x})| < |all - onPath|
  {
    assert all - (onPath + {x}) == (all - onPath) - {x};
  }

  /** The context of one step of tree assembly: the child lists of the whole list, and the chain from the root. */
  ghost predicate Building(children: map<string, seq<MindmapNode>>, records: seq<MindmapNode>, path: seq<MindmapNode>)
  {
    UniqueIds(records) && children == ChildMap(records) && AncestorPath(records, path)
  }

  /** Descending to a child record keeps the assembly context and shrinks the measure. */
  lemma Descend(children: map<string, seq<MindmapNode>>, records: seq<MindmapNode>, path: seq<MindmapNode>, c: MindmapNode)
    requires Building(children, records, path) && AllChildrenOf(records, [c], path[|path| - 1].id)
    ensures Building(children, records, path + [c])
    ensures |IdSet(records) - PathIds(path + [c])| < |IdSet(records) - PathIds(path)|
  {
    assert c in [c];
    ChildOffPath(records, path, c);
  }

  /**
   * The tree below record `n` once every child list is linked and sorted:
   * the children of `n` are its child records sorted by order index, each
   * with its own subtree (sortChildrenRecursively recurses into each child).
   * `path` is the chain from the root to `n`; it only serves termination.
   */
  function Grow(children: map<string, seq<MindmapNode>>, n: MindmapNode,
                ghost records: seq<MindmapNode>, ghost path: seq<MindmapNode>): (t: TreeNode)
    requires Building(children, records, path) && path[|path| - 1] == n
    ensures t.node == n
    decreases |IdSet(records) - PathIds(path)|, 1
  {
    assert n in records;
    ChildRecordsMembers(records, n.id);
    SortMembers(children[n.id]);
    TreeNode(n, GrowAll(children, SortByOrder(children[n.id]), records, path))
  }

  /** Every record of `cs` is in the list and names `id` as parent. */
  ghost predicate AllChildrenOf(records: seq<MindmapNode>, cs: seq<MindmapNode>, id: string)
  {
    forall c :: c in cs ==> c in records && c.parentId == Some(id)
  }

  /** One subtree per record of `cs`, in order: no child record is lost. */
  function GrowAll(children: map<string, seq<MindmapNode>>, cs: seq<MindmapNode>,
                   ghost records: seq<MindmapNode>, ghost path: seq<MindmapNode>): (ts: seq<TreeNode>)
    requires Building(children, records, path)
    requires AllChildrenOf(records, cs, path[|path| - 1].id)
    ensures Nodes(ts) == cs
    decreases |IdSet(records) - PathIds(path)|, 0, |cs|
  {
    if cs == [] then []
    else
      Descend(children, records, path, cs[0]);
      var first := Grow(children, cs[0], records, path + [cs[0]]);
      var rest := GrowAll(children, cs[1..], records, path);
      NodesCons(first, rest);
      HeadTail(cs);
      [first] + rest
  }

  lemma NodesCons(t: TreeNode, ts: seq<TreeNode>)
    ensures Nodes([t] + ts) == [t.node] + Nodes(ts)
  {
  }

  /** The value buildNodeTree returns. */
  function BuildTree(records: seq<MindmapNode>): (t: Option<TreeNode>)
    requires UniqueIds(records)
    ensures t.None? <==> forall i :: 0 <= i < |records| ==> records[i].parentId.Some?
    ensures t.Some? ==> t.value.node == records[LastRootIndex(records)]
  {
    match LastRoot(records)
    case None => None
    case Some(r) => Some(Grow(ChildMap(records), r, records, [r]))
  }

  /** buildNodeTree: the two passes over the map, then the recursive sort. */
  method BuildNodeTree(records: seq<MindmapNode>) returns (tree: Option<TreeNode>)
    requires UniqueIds(records)
    ensures tree == BuildTree(records)
  {
    var root, children := CollectChildren(records);
    if root.None? {
      tree := None;
    } else {
      var r := root.value;
      tree := Some(Grow(children, r, records, [r]));
    }
  }

  /**
   * What the builder promises of every node of the tree: its children are its
   * child records, sorted ascending by order index, as a permutation that
   * keeps records with equal order index in list order.
   */
  ghost predicate WellBuilt(t: TreeNode, records: seq<MindmapNode>)
    decreases t
  {
    && t.node in records
    && Sorted(Nodes(t.children))
    && multiset(Nodes(t.children)) == multiset(ChildRecords(records, t.node.id))
    && (forall k :: WithKey(k, Nodes(t.children)) == WithKey(k, ChildRecords(records, t.node.id)))
    && (forall i :: 0 <= i < |t.children| ==> WellBuilt(t.children[i], records))
  }

  ghost predicate AllWellBuilt(ts: seq<TreeNode>, records: seq<MindmapNode>)
  {
    forall i :: 0 <= i < |ts| ==> WellBuilt(ts[i], records)
  }

  lemma {:induction false} GrowWellBuilt(children: map<string, seq<MindmapNode>>, n: MindmapNode,
                                         records: seq<MindmapNode>, path: seq<MindmapNode>)
    requires Building(children, records, path) && path[|path| - 1] == n
    ensures WellBuilt(Grow(children, n, records, path), records)
    decreases |IdSet(records) - PathIds(path)|, 1
  {
    var t := Grow(children, n, records, path);
    assert n in records;
    ChildRecordsMembers(records, n.id);
    var cs := SortByOrder(children[n.id]);
    SortMembers(children[n.id]);
    GrowAllWellBuilt(children, cs, records, path);
    forall k ensures WithKey(k, Nodes(t.children)) == WithKey(k, ChildRecords(records, n.id)) {
      SortStable(k, children[n.id]);
    }
  }

  lemma {:induction false} GrowAllWellBuilt(children: map<string, seq<MindmapNode>>, cs: seq<MindmapNode>,
                                            records: seq<MindmapNode>, path: seq<MindmapNode>)
    requires Building(children, records, path)
    requires AllChildrenOf(records, cs, path[|path| - 1].id)
    ensures AllWellBuilt(GrowAll(children, cs, records, path), records)
    decreases |IdSet(records) - PathIds(path)|, 0, |cs|
  {
    if cs != [] {
      Descend(children, records, path, cs[0]);
      GrowWellBuilt(children, cs[0], records, path + [cs[0]]);
      GrowAllWellBuilt(children, cs[1..], records, path);
      GrowAllCons(children, cs, records, path);
      AllWellBuiltCons(Grow(children, cs[0], records, path + [cs[0]]), GrowAll(children, cs[1..], records, path), records);
    }
  }

  lemma GrowAllCons(children: map<string, seq<MindmapNode>>, cs: seq<MindmapNode>,
                    records: seq<MindmapNode>, path: seq<MindmapNode>)
    requires Building(children, records, path)
    requires AllChildrenOf(records, cs, path[|path| - 1].id)
    requires cs != [] && Building(children, records, path + [cs[0]])
    ensures GrowAll(children, cs, records, path)
            == [Grow(children, cs[0], records, path + [cs[0]])] + GrowAll(children, cs[1..], records, path)
  {
  }

  lemma AllWellBuiltCons(first: TreeNode, rest: seq<TreeNode>, records: seq<MindmapNode>)
    requires WellBuilt(first, records) && AllWellBuilt(rest, records)
    ensures AllWellBuilt([first] + rest, records)
  {
    var ts := [first] + rest;
    forall i | 0 <= i < |ts| ensures WellBuilt(ts[i], records) {
      if i > 0 {
        assert ts[i] == rest[i - 1];
      }
    }
  }

  /** Every child list reachable from the root is sorted, and is a stable permutation of the records naming that node as parent. */
  lemma BuildTreeWellBuilt(records: seq<MindmapNode>)
    requires UniqueIds(records) && BuildTree(records).Some?
    ensures WellBuilt(BuildTree(records).value, records)
  {
    var r := records[LastRootIndex(records)];
    GrowWellBuilt(ChildMap(records), r, records, [r]);
  }
}
