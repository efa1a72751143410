// The shape of the tree buildNodeTree returns (src/utils/layout.ts:13-47):
// with unique ids, every child names its parent, no id occurs twice, and
// every record in the tree is reached from the root through a chain of
// resolvable parent ids. This is what the radial layout asks of its input.
module TreeShape {
  import opened Types
  import opened StableSort
  import opened TreeBuilder
  import opened RadialLayout
  import opened Sequences

  // ---------------------------------------------------------------------
  // Unique ids survive filtering and sorting
  // ---------------------------------------------------------------------

  /** Two records of a list with unique ids that share an id are the same record. */
  lemma SameIdSameRecord(records: seq<MindmapNode>, a: MindmapNode, b: MindmapNode)
    requires UniqueIds(records) && a in records && b in records && a.id == b.id
    ensures a == b
  {
    var i :| 0 <= i < |records| && records[i] == a;
    var j :| 0 <= j < |records| && records[j] == b;
  }

  lemma {:induction false} ChildRecordsUnique(records: seq<MindmapNode>, id: string)
    requires UniqueIds(records)
    ensures UniqueIds(ChildRecords(records, id))
  {
    if records != [] {
      var init, last := records[..|records| - 1], records[|records| - 1];
      assert UniqueIds(init) by {
        assert forall i :: 0 <= i < |init| ==> init[i] == records[i];
      }
      ChildRecordsUnique(init, id);
      ChildRecordsMembers(init, id);
      var before := ChildRecords(init, id);
      var cr := ChildRecords(records, id);
      if last.parentId == Some(id) {
        forall i | 0 <= i < |before| ensures before[i].id != last.id {
          assert before[i] in init;
          var p :| 0 <= p < |init| && init[p] == before[i];
          assert records[p] == before[i];
        }
        assert cr == before + [last];
      }
    }
  }

  lemma {:induction false} CountAtMostOne(s: seq<MindmapNode>, x: MindmapNode)
    requires UniqueIds(s)
    ensures multiset(s)[x] <= 1
  {
    if s != [] {
      var init := s[..|s| - 1];
      assert s == init + [s[|s| - 1]];
      assert UniqueIds(init) by {
        assert forall i :: 0 <= i < |init| ==> init[i] == s[i];
      }
      CountAtMostOne(init, x);
      if s[|s| - 1] == x {
        forall i | 0 <= i < |init| ensures init[i] != x {
          assert s[i].id != s[|s| - 1].id || i == |s| - 1;
        }
        assert x !in multiset(init);
      }
    }
  }

  lemma CountTwo(s: seq<MindmapNode>, j: nat, k: nat)
    requires j < k < |s| && s[j] == s[k]
    ensures multiset(s)[s[k]] >= 2
  {
    assert s == s[..k] + [s[k]] + s[k + 1..];
    assert s[j] in s[..k];
  }

  /** A permutation of a list with unique ids has unique ids. */
  lemma UniquePermutation(a: seq<MindmapNode>, b: seq<MindmapNode>)
    requires UniqueIds(a) && multiset(a) == multiset(b)
    ensures UniqueIds(b)
  {
    forall j, k | 0 <= j < |b| && 0 <= k < |b| && b[j].id == b[k].id ensures j == k {
      assert b[j] in multiset(a) && b[k] in multiset(a);
      var p :| 0 <= p < |a| && a[p] == b[j];
      var q :| 0 <= q < |a| && a[q] == b[k];
      assert p == q;
      CountAtMostOne(a, b[j]);
      if j < k {
        CountTwo(b, j, k);
      } else if k < j {
        CountTwo(b, k, j);
      }
    }
  }

  // ---------------------------------------------------------------------
  // Ancestor chains
  // ---------------------------------------------------------------------

  lemma AncestorPrefix(records: seq<MindmapNode>, p: seq<MindmapNode>, n: nat)
    requires AncestorPath(records, p) && 0 < n <= |p|
    ensures AncestorPath(records, p[..n])
  {
  }

  /** The last record of a chain is parentless exactly when the chain is a single record. */
  lemma LastParent(records: seq<MindmapNode>, p: seq<MindmapNode>)
    requires AncestorPath(records, p)
    ensures |p| == 1 ==> p[|p| - 1].parentId.None?
    ensures |p| > 1 ==> p[|p| - 1].parentId == Some(p[|p| - 2].id)
  {
  }

  /** With unique ids a record has at most one ancestor chain: two chains ending at the same id are equal. */
  lemma {:induction false} PathUnique(records: seq<MindmapNode>, p: seq<MindmapNode>, q: seq<MindmapNode>)
    requires UniqueIds(records) && AncestorPath(records, p) && AncestorPath(records, q)
    requires p[|p| - 1].id == q[|q| - 1].id
    ensures p == q
    decreases |p|
  {
    SameIdSameRecord(records, p[|p| - 1], q[|q| - 1]);
    LastParent(records, p);
    LastParent(records, q);
    if |p| == 1 {
      assert |q| == 1;
      assert p == [p[0]] && q == [q[0]];
    } else {
      assert |q| > 1;
      var p', q' := p[..|p| - 1], q[..|q| - 1];
      AncestorPrefix(records, p, |p| - 1);
      AncestorPrefix(records, q, |q| - 1);
      PathUnique(records, p', q');
      assert p == p' + [p[|p| - 1]] && q == q' + [q[|q| - 1]];
    }
  }

  /** The id x is that of a record reached by an ancestor chain extending `path`. */
  ghost predicate Below(records: seq<MindmapNode>, path: seq<MindmapNode>, x: string)
  {
    exists q: seq<MindmapNode> :: AncestorPath(records, q) && |path| <= |q| && q[..|path|] == path && q[|q| - 1].id == x
  }

  /** What is reached below a child of the chain is reached below the chain. */
  lemma BelowParent(records: seq<MindmapNode>, path: seq<MindmapNode>, c: MindmapNode, x: string)
    requires Below(records, path + [c], x)
    ensures Below(records, path, x)
  {
    var q: seq<MindmapNode> :| AncestorPath(records, q) && |path + [c]| <= |q| && q[..|path + [c]|] == path + [c] && q[|q| - 1].id == x;
    assert (path + [c])[..|path|] == path;
    PrefixOfPrefix(path, path + [c], q);
  }

  /** Ids reached below two children of the same chain come from the same child. */
  lemma BelowSameChild(records: seq<MindmapNode>, path: seq<MindmapNode>, c1: MindmapNode, c2: MindmapNode, x: string)
    requires UniqueIds(records)
    ensures Below(records, path + [c1], x) && Below(records, path + [c2], x) ==> c1 == c2
  {
    if Below(records, path + [c1], x) && Below(records, path + [c2], x) {
      var q1: seq<MindmapNode> :| AncestorPath(records, q1) && |path + [c1]| <= |q1| && q1[..|path + [c1]|] == path + [c1] && q1[|q1| - 1].id == x;
      var q2: seq<MindmapNode> :| AncestorPath(records, q2) && |path + [c2]| <= |q2| && q2[..|path + [c2]|] == path + [c2] && q2[|q2| - 1].id == x;
      PathUnique(records, q1, q2);
      assert q1[|path|] == (path + [c1])[|path|];
      assert q2[|path|] == (path + [c2])[|path|];
    }
  }

  /** An id reached strictly below a chain is not an id on the chain. */
  lemma BelowOffPath(records: seq<MindmapNode>, path: seq<MindmapNode>, c: MindmapNode, x: string)
    requires Below(records, path + [c], x)
    ensures x !in PathIds(path)
  {
    var q: seq<MindmapNode> :| AncestorPath(records, q) && |path + [c]| <= |q| && q[..|path + [c]|] == path + [c] && q[|q| - 1].id == x;
    forall k | 0 <= k < |path| ensures path[k].id != x {
      assert q[k] == (path + [c])[k];
    }
  }

  // ---------------------------------------------------------------------
  // The built tree
  // ---------------------------------------------------------------------

  /** The id x is in one of the subtrees of children i, i+1, ... */
  lemma {:induction false} ForestMember(t: TreeNode, i: nat, x: string)
    requires x in ForestIds(t, i)
    ensures exists j :: i <= j < |t.children| && x in TreeIds(t.children[j])
    decreases |t.children| - i
  {
    if x !in TreeIds(t.children[i]) {
      ForestMember(t, i + 1, x);
    }
  }

  /** The context of a subtree of the built tree: unique ids, and an ancestor chain from the root to its record. */
  ghost predicate Rooted(t: TreeNode, records: seq<MindmapNode>, path: seq<MindmapNode>)
  {
    UniqueIds(records) && WellBuilt(t, records) && AncestorPath(records, path) && path[|path| - 1] == t.node
  }

  /** Child j of a subtree is a record of the list naming the subtree's record as parent, and extends the chain. */
  lemma ChildRooted(t: TreeNode, records: seq<MindmapNode>, path: seq<MindmapNode>, j: nat)
    requires Rooted(t, records, path) && j < |t.children|
    ensures t.children[j].node in records && t.children[j].node.parentId == Some(t.node.id)
    ensures Rooted(t.children[j], records, path + [t.children[j].node])
  {
    var c := t.children[j].node;
    assert c == Nodes(t.children)[j];
    assert c in multiset(Nodes(t.children));
    assert c in multiset(ChildRecords(records, t.node.id));
    ChildRecordsMembers(records, t.node.id);
    ChildOffPath(records, path, c);
  }

  /** Siblings have distinct ids: the child list is a permutation of the child records of a list with unique ids. */
  lemma ChildIdsUnique(t: TreeNode, records: seq<MindmapNode>)
    requires UniqueIds(records) && WellBuilt(t, records)
    ensures UniqueIds(Nodes(t.children))
  {
    ChildRecordsUnique(records, t.node.id);
    UniquePermutation(ChildRecords(records, t.node.id), Nodes(t.children));
  }

  /** Every id of a subtree is reached by an ancestor chain through the subtree's record. */
  lemma {:induction false} TreeBelow(t: TreeNode, records: seq<MindmapNode>, path: seq<MindmapNode>)
    requires Rooted(t, records, path)
    ensures forall x :: x in TreeIds(t) ==> Below(records, path, x)
    decreases t, 1
  {
    forall x | x in TreeIds(t) ensures Below(records, path, x) {
      if x == t.node.id {
        assert path[..|path|] == path;
      } else {
        ForestBelow(t, records, path, x);
      }
    }
  }

  /** An id in the subtrees of the children is reached by a chain through one child. */
  lemma {:induction false} ForestBelow(t: TreeNode, records: seq<MindmapNode>, path: seq<MindmapNode>, x: string)
    requires Rooted(t, records, path) && x in ForestIds(t, 0)
    ensures exists j :: 0 <= j < |t.children| && Below(records, path + [t.children[j].node], x)
    ensures Below(records, path, x)
    decreases t, 0
  {
    ForestMember(t, 0, x);
    var j :| 0 <= j < |t.children| && x in TreeIds(t.children[j]);
    ChildRooted(t, records, path, j);
    TreeBelow(t.children[j], records, path + [t.children[j].node]);
    BelowParent(records, path, t.children[j].node, x);
  }

  /** Subtrees of two different children share no id. */
  lemma SubtreesDisjoint(t: TreeNode, records: seq<MindmapNode>, path: seq<MindmapNode>, i: nat, j: nat)
    requires Rooted(t, records, path) && i < j < |t.children|
    ensures TreeIds(t.children[i]) !! TreeIds(t.children[j])
  {
    var ci, cj := t.children[i].node, t.children[j].node;
    ChildRooted(t, records, path, i);
    ChildRooted(t, records, path, j);
    ChildIdsUnique(t, records);
    assert ci == Nodes(t.children)[i] && cj == Nodes(t.children)[j];
    TreeBelow(t.children[i], records, path + [ci]);
    TreeBelow(t.children[j], records, path + [cj]);
    forall x | x in TreeIds(t.children[i]) ensures x !in TreeIds(t.children[j]) {
      BelowSameChild(records, path, ci, cj, x);
    }
  }

  /** Children i, i+1, ... satisfy DistinctFrom when each subtree is distinct and shares no id with the later ones. */
  lemma {:induction false} SiblingsDistinct(t: TreeNode, i: nat)
    requires forall j :: 0 <= j < |t.children| ==> DistinctTree(t.children[j])
    requires forall j :: 0 <= j < |t.children| ==> TreeIds(t.children[j]) !! ForestIds(t, j + 1)
    ensures DistinctFrom(t, i)
    decreases |t.children| - i
  {
    if i < |t.children| {
      SiblingsDistinct(t, i + 1);
    }
  }

  /** The subtree of child i shares no id with the subtrees of the children after it. */
  lemma LaterSubtreesDisjoint(t: TreeNode, records: seq<MindmapNode>, path: seq<MindmapNode>, i: nat)
    requires Rooted(t, records, path) && i < |t.children|
    ensures TreeIds(t.children[i]) !! ForestIds(t, i + 1)
  {
    forall x | x in ForestIds(t, i + 1) ensures x !in TreeIds(t.children[i]) {
      ForestMember(t, i + 1, x);
      var j :| i + 1 <= j < |t.children| && x in TreeIds(t.children[j]);
      SubtreesDisjoint(t, records, path, i, j);
    }
  }

  /** A subtree of the built tree is linked and has distinct ids. */
  lemma {:induction false} RootedShape(t: TreeNode, records: seq<MindmapNode>, path: seq<MindmapNode>)
    requires Rooted(t, records, path)
    ensures Linked(t) && DistinctTree(t)
    decreases t
  {
    forall j | 0 <= j < |t.children|
      ensures t.children[j].node.parentId == Some(t.node.id) && Linked(t.children[j]) && DistinctTree(t.children[j])
    {
      ChildRooted(t, records, path, j);
      RootedShape(t.children[j], records, path + [t.children[j].node]);
    }
    forall j | 0 <= j < |t.children| ensures TreeIds(t.children[j]) !! ForestIds(t, j + 1) {
      LaterSubtreesDisjoint(t, records, path, j);
    }
    SiblingsDistinct(t, 0);
    forall x | x in ForestIds(t, 0) ensures x != t.node.id {
      ForestBelow(t, records, path, x);
      var j :| 0 <= j < |t.children| && Below(records, path + [t.children[j].node], x);
      BelowOffPath(records, path, t.children[j].node, x);
      assert t.node in path;
    }
  }

  /** The built tree sits at the chain made of its root alone. */
  lemma RootRooted(records: seq<MindmapNode>)
    requires UniqueIds(records) && BuildTree(records).Some?
    ensures Rooted(BuildTree(records).value, records, [BuildTree(records).value.node])
  {
    BuildTreeWellBuilt(records);
    var t := BuildTree(records).value;
    assert t.node == records[LastRootIndex(records)];
    RootChain(records, t.node);
  }

  /** A record without a parent is an ancestor chain of length one. */
  lemma RootChain(records: seq<MindmapNode>, r: MindmapNode)
    requires r in records && r.parentId.None?
    ensures AncestorPath(records, [r])
  {
  }

  /**
   * With unique ids the built tree is what the radial layout accepts: every
   * child names its parent, no id occurs twice, and the root has no parent.
   */
  lemma BuildTreeReady(records: seq<MindmapNode>)
    requires UniqueIds(records) && BuildTree(records).Some?
    ensures Ready([], BuildTree(records).value)
  {
    var t := BuildTree(records).value;
    RootRooted(records);
    RootedShape(t, records, [t.node]);
    ReadyAtStart(t);
  }

  /** A linked tree with distinct ids and a parentless root may start the layout. */
  lemma ReadyAtStart(t: TreeNode)
    requires Linked(t) && DistinctTree(t) && t.node.parentId.None?
    ensures Ready([], t)
  {
    assert Placed([]) + Refs([]) == {};
  }

  /**
   * Orphans are dropped: every record whose id is in the built tree is the
   * root or names, as its parent, a record of the list.
   */
  lemma BuildTreeReached(records: seq<MindmapNode>, x: MindmapNode)
    requires UniqueIds(records) && BuildTree(records).Some? && x in records
    requires x.id in TreeIds(BuildTree(records).value)
    ensures x == BuildTree(records).value.node || (x.parentId.Some? && x.parentId.value in IdSet(records))
  {
    var t := BuildTree(records).value;
    RootRooted(records);
    TreeBelow(t, records, [t.node]);
    var q: seq<MindmapNode> :| AncestorPath(records, q) && 1 <= |q| && q[..1] == [t.node] && q[|q| - 1].id == x.id;
    SameIdSameRecord(records, q[|q| - 1], x);
    LastParent(records, q);
    if |q| > 1 {
      assert q[|q| - 2] in records;
    } else {
      assert q[0] == q[..1][0];
    }
  }
}
