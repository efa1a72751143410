// The sort of each child list by ascending order index: the JavaScript
// sort is stable, so its result is the unique arrangement that is sorted by
// order index and keeps records with equal order index in their input
// order. It is modelled as a stable insertion sort.
module StableSort {
  import opened Types
  import opened Sequences

  /** Ascending by order index. */
  predicate Sorted(s: seq<MindmapNode>)
  {
    forall i, j :: 0 <= i < j < |s| ==> s[i].orderIndex <= s[j].orderIndex
  }

  /** The records of `s` whose order index is `k`, in their order in `s`. */
  function WithKey(k: real, s: seq<MindmapNode>): seq<MindmapNode>
  {
    if s == [] then []
    else (if s[0].orderIndex == k then [s[0]] else []) + WithKey(k, s[1..])
  }

  /** Inserts `x` after every record whose order index is at most its own. */
  function Insert(x: MindmapNode, s: seq<MindmapNode>): (r: seq<MindmapNode>)
    ensures multiset(r) == multiset(s) + multiset{x}
    ensures |r| == |s| + 1
  {
    if s == [] then [x]
    else if s[0].orderIndex <= x.orderIndex then
      assert s == [s[0]] + s[1..];
      [s[0]] + Insert(x, s[1..])
    else
      [x] + s
  }

  /** Every element of `Insert(x, s)` is `x` or an element of `s`. */
  lemma {:induction false} InsertBound(x: MindmapNode, s: seq<MindmapNode>, lo: real)
    requires lo <= x.orderIndex
    requires forall i :: 0 <= i < |s| ==> lo <= s[i].orderIndex
    ensures forall i :: 0 <= i < |Insert(x, s)| ==> lo <= Insert(x, s)[i].orderIndex
  {
    var r := Insert(x, s);
    forall i | 0 <= i < |r| ensures lo <= r[i].orderIndex {
      assert r[i] in multiset(r);
      assert r[i] == x || r[i] in multiset(s);
    }
  }

  lemma {:induction false} InsertSorted(x: MindmapNode, s: seq<MindmapNode>)
    requires Sorted(s)
    ensures Sorted(Insert(x, s))
  {
    if s != [] && s[0].orderIndex <= x.orderIndex {
      var rest := Insert(x, s[1..]);
      InsertSorted(x, s[1..]);
      InsertBound(x, s[1..], s[0].orderIndex);
      var r := [s[0]] + rest;
      assert Insert(x, s) == r;
      forall i, j | 0 <= i < j < |r| ensures r[i].orderIndex <= r[j].orderIndex {
        if i > 0 {
          assert r[i] == rest[i - 1] && r[j] == rest[j - 1];
        } else {
          assert r[j] == rest[j - 1];
        }
      }
    }
  }

  /** Stable sort by order index. */
  function SortByOrder(s: seq<MindmapNode>): (r: seq<MindmapNode>)
    ensures Sorted(r)
    ensures multiset(r) == multiset(s)
    ensures |r| == |s|
  {
    if s == [] then []
    else
      assert s == s[..|s| - 1] + [s[|s| - 1]];
      var sorted := SortByOrder(s[..|s| - 1]);
      InsertSorted(s[|s| - 1], sorted);
      Insert(s[|s| - 1], sorted)
  }

  lemma {:induction false} WithKeyAppend(k: real, a: seq<MindmapNode>, b: seq<MindmapNode>)
    ensures WithKey(k, a + b) == WithKey(k, a) + WithKey(k, b)
  {
    if a == [] {
      assert a + b == b;
    } else {
      assert (a + b)[0] == a[0];
      assert (a + b)[1..] == a[1..] + b;
      WithKeyAppend(k, a[1..], b);
      var h := if a[0].orderIndex == k then [a[0]] else [];
      Regroup(WithKey(k, a + b), WithKey(k, a), h, WithKey(k, a[1..]), WithKey(k, b));
    }
  }

  lemma {:induction false} WithKeyNone(k: real, s: seq<MindmapNode>)
    requires forall i :: 0 <= i < |s| ==> s[i].orderIndex != k
    ensures WithKey(k, s) == []
  {
    if s != [] {
      WithKeyNone(k, s[1..]);
    }
  }

  lemma {:induction false} InsertStable(k: real, x: MindmapNode, s: seq<MindmapNode>)
    requires Sorted(s)
    ensures WithKey(k, Insert(x, s)) == WithKey(k, s) + WithKey(k, [x])
    decreases |s|
  {
    if s == [] {
      assert Insert(x, s) == [x];
    } else if s[0].orderIndex <= x.orderIndex {
      assert Sorted(s[1..]);
      InsertStable(k, x, s[1..]);
      InsertStableStep(k, x, s);
    } else {
      InsertStableFront(k, x, s);
    }
  }

  lemma InsertStableStep(k: real, x: MindmapNode, s: seq<MindmapNode>)
    requires s != [] && s[0].orderIndex <= x.orderIndex
    requires WithKey(k, Insert(x, s[1..])) == WithKey(k, s[1..]) + WithKey(k, [x])
    ensures WithKey(k, Insert(x, s)) == WithKey(k, s) + WithKey(k, [x])
  {
    var head, tail := [s[0]], s[1..];
    var rest := Insert(x, tail);
    assert Insert(x, s) == head + rest;
    WithKeyAppend(k, head, rest);
    HeadTail(s);
    WithKeyAppend(k, head, tail);
    Regroup(WithKey(k, Insert(x, s)), WithKey(k, s), WithKey(k, head), WithKey(k, tail), WithKey(k, [x]));
  }

  lemma InsertStableFront(k: real, x: MindmapNode, s: seq<MindmapNode>)
    requires Sorted(s) && s != [] && x.orderIndex < s[0].orderIndex
    ensures WithKey(k, Insert(x, s)) == WithKey(k, s) + WithKey(k, [x])
  {
    assert Insert(x, s) == [x] + s;
    WithKeyAppend(k, [x], s);
    if k == x.orderIndex {
      WithKeyNone(k, s);
    } else {
      assert [x][1..] == [];
    }
  }

  /** The sort is stable: for every order index, the records with that index keep their relative order. */
  lemma {:induction false} SortStable(k: real, s: seq<MindmapNode>)
    ensures WithKey(k, SortByOrder(s)) == WithKey(k, s)
  {
    if s != [] {
      var init, last := s[..|s| - 1], s[|s| - 1];
      assert init + [last] == s;
      assert SortByOrder(s) == Insert(last, SortByOrder(init));
      SortStable(k, init);
      InsertStable(k, last, SortByOrder(init));
      WithKeyAppend(k, init, [last]);
    }
  }

  /** Sorting neither adds nor loses a record. */
  lemma SortMembers(s: seq<MindmapNode>)
    ensures forall x :: x in SortByOrder(s) <==> x in s
  {
    var r := SortByOrder(s);
    forall x ensures x in r <==> x in s {
      assert x in r <==> x in multiset(r);
      assert x in s <==> x in multiset(s);
    }
  }
}
