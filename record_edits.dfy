// The record-list edits of src/App.tsx: expand all, collapse all, drill down,
// drill up and the two branches of save (edit the fields of one record, or
// append a new record with a computed level and order index). Each is a map,
// find or reduce over the flat list; the App class reassigns its state with
// their results.
module RecordEdits {
  import opened Types

  /** Two records agree on everything but the collapsed flag. */
  predicate SameButCollapsed(a: MindmapNode, b: MindmapNode)
  {
    a.(isCollapsed := b.isCollapsed) == b
  }

  /** The lists are equally long and agree record by record on everything but the collapsed flag. */
  predicate OnlyCollapsedChanged(before: seq<MindmapNode>, after: seq<MindmapNode>)
  {
    |before| == |after| && forall i :: 0 <= i < |before| ==> SameButCollapsed(before[i], after[i])
  }

  /** A list whose records only had their collapsed flag changed keeps its ids, in order. */
  lemma OnlyCollapsedKeepsIds(before: seq<MindmapNode>, after: seq<MindmapNode>)
    requires OnlyCollapsedChanged(before, after)
    ensures Ids(after) == Ids(before)
    ensures UniqueIds(before) ==> UniqueIds(after)
  {
    assert forall i :: 0 <= i < |before| ==> after[i].id == before[i].id;
  }

  /** handleExpandAll: every record expanded, nothing else changed. */
  function ExpandAll(rs: seq<MindmapNode>): (r: seq<MindmapNode>)
    ensures OnlyCollapsedChanged(rs, r)
    ensures forall i :: 0 <= i < |r| ==> !r[i].isCollapsed
  {
    seq(|rs|, i requires 0 <= i < |rs| => rs[i].(isCollapsed := false))
  }

  /** handleCollapseAll: the level-0 records expanded, all others collapsed, nothing else changed. */
  function CollapseAll(rs: seq<MindmapNode>): (r: seq<MindmapNode>)
    ensures OnlyCollapsedChanged(rs, r)
    ensures forall i :: 0 <= i < |r| ==> (r[i].isCollapsed <==> rs[i].level != 0.0)
  {
    seq(|rs|, i requires 0 <= i < |rs| => rs[i].(isCollapsed := rs[i].level != 0.0))
  }

  /**
   * handleDrillDown: with a (truthy) selection, the selected record and the
   * records whose parent id is the selection are expanded and every other
   * record is collapsed; without one the list is returned unchanged.
   */
  function DrillDown(rs: seq<MindmapNode>, selected: Option<string>): (r: seq<MindmapNode>)
    ensures OnlyCollapsedChanged(rs, r)
    ensures !Truthy(selected) ==> r == rs
    ensures Truthy(selected) ==>
              forall i :: 0 <= i < |r| ==>
                (!r[i].isCollapsed <==> rs[i].id == selected.value || rs[i].parentId == selected)
  {
    if !Truthy(selected) then rs
    else
      seq(|rs|, i requires 0 <= i < |rs| =>
        rs[i].(isCollapsed := !(rs[i].id == selected.value || rs[i].parentId == selected)))
  }

  /** Array.find on the id: the first record whose id equals `id` (none for a null id). */
  function FindById(rs: seq<MindmapNode>, id: Option<string>): (r: Option<MindmapNode>)
    ensures r.Some? ==> id == Some(r.value.id) && r.value in rs
    ensures r.None? <==> forall i :: 0 <= i < |rs| ==> Some(rs[i].id) != id
  {
    if rs == [] then None
    else if Some(rs[0].id) == id then Some(rs[0])
    else FindById(rs[1..], id)
  }

  /** FindById returns the first matching record. */
  lemma {:induction false} FindByIdFirst(rs: seq<MindmapNode>, id: Option<string>)
    requires FindById(rs, id).Some?
    ensures exists k :: 0 <= k < |rs| && rs[k] == FindById(rs, id).value && forall j :: 0 <= j < k ==> Some(rs[j].id) != id
  {
    if Some(rs[0].id) != id {
      FindByIdFirst(rs[1..], id);
      var k :| 0 <= k < |rs[1..]| && rs[1..][k] == FindById(rs[1..], id).value
               && forall j :: 0 <= j < k ==> Some(rs[1..][j].id) != id;
      assert rs[k + 1] == FindById(rs, id).value;
      forall j | 0 <= j < k + 1 ensures Some(rs[j].id) != id {
        if j > 0 {
          assert rs[j] == rs[1..][j - 1];
        }
      }
    } else {
      assert rs[0] == FindById(rs, id).value;
    }
  }

  /** Drill up applies: the selected record exists and has a truthy parent id. */
  predicate CanDrillUp(rs: seq<MindmapNode>, selected: Option<string>)
  {
    FindById(rs, selected).Some? && Truthy(FindById(rs, selected).value.parentId)
  }

  /** handleDrillUp, its list: the records with the selected record's parent id expanded. */
  function DrillUp(rs: seq<MindmapNode>, selected: Option<string>): (r: seq<MindmapNode>)
    ensures OnlyCollapsedChanged(rs, r)
    ensures !CanDrillUp(rs, selected) ==> r == rs
    ensures CanDrillUp(rs, selected) ==>
              forall i :: 0 <= i < |r| ==>
                if Some(rs[i].id) == FindById(rs, selected).value.parentId then !r[i].isCollapsed
                else r[i] == rs[i]
  {
    if !CanDrillUp(rs, selected) then rs
    else
      var parentId := FindById(rs, selected).value.parentId;
      seq(|rs|, i requires 0 <= i < |rs| => if Some(rs[i].id) == parentId then rs[i].(isCollapsed := false) else rs[i])
  }

  /** handleDrillUp, its selection: it moves to the selected record's parent id. */
  function DrillUpSelection(rs: seq<MindmapNode>, selected: Option<string>): (s: Option<string>)
    ensures !CanDrillUp(rs, selected) ==> s == selected
    ensures CanDrillUp(rs, selected) ==> Truthy(s) && exists i :: 0 <= i < |rs| && Some(rs[i].id) == selected && rs[i].parentId == s
  {
    if CanDrillUp(rs, selected) then
      FindByIdFirst(rs, selected);
      FindById(rs, selected).value.parentId
    else selected
  }

  /** After drilling up, the new selection's record (when it exists) is expanded. */
  lemma DrillUpExpandsParent(rs: seq<MindmapNode>, selected: Option<string>)
    requires CanDrillUp(rs, selected)
    ensures var r := DrillUp(rs, selected);
            FindById(r, DrillUpSelection(rs, selected)).Some? ==> !FindById(r, DrillUpSelection(rs, selected)).value.isCollapsed
  {
    var r := DrillUp(rs, selected);
    var s := DrillUpSelection(rs, selected);
    if FindById(r, s).Some? {
      FindByIdFirst(r, s);
      var k :| 0 <= k < |r| && r[k] == FindById(r, s).value && forall j :: 0 <= j < k ==> Some(r[j].id) != s;
      assert SameButCollapsed(rs[k], r[k]);
    }
  }

  /** Only the collapsed flags differ: expanding everything afterwards gives the same list as expanding the original. */
  lemma ExpandAllForgets(before: seq<MindmapNode>, after: seq<MindmapNode>)
    requires OnlyCollapsedChanged(before, after)
    ensures ExpandAll(after) == ExpandAll(before)
  {
    forall i | 0 <= i < |before| ensures ExpandAll(after)[i] == ExpandAll(before)[i] {
      assert SameButCollapsed(before[i], after[i]);
    }
  }

  // ---------------------------------------------------------------------
  // Save: the edit branch
  // ---------------------------------------------------------------------

  /** The record with the form's title, summary, description, colour and size. */
  function WithFields(n: MindmapNode, form: MindmapNode): MindmapNode
  {
    n.(title := form.title, summary := form.summary, description := form.description, color := form.color, size := form.size)
  }

  /** handleSaveNode with an editing node: the records with its id take the form's editable fields. */
  function SaveEdit(rs: seq<MindmapNode>, editingId: string, form: MindmapNode): (r: seq<MindmapNode>)
    ensures |r| == |rs|
    ensures forall i :: 0 <= i < |rs| && rs[i].id != editingId ==> r[i] == rs[i]
    ensures forall i :: 0 <= i < |rs| && rs[i].id == editingId ==>
              && r[i].title == form.title && r[i].summary == form.summary && r[i].description == form.description
              && r[i].color == form.color && r[i].size == form.size
              && r[i].id == rs[i].id && r[i].parentId == rs[i].parentId && r[i].level == rs[i].level
              && r[i].orderIndex == rs[i].orderIndex && r[i].isCollapsed == rs[i].isCollapsed
              && r[i].createdAt == rs[i].createdAt && r[i].updatedAt == rs[i].updatedAt
  {
    seq(|rs|, i requires 0 <= i < |rs| => if rs[i].id == editingId then WithFields(rs[i], form) else rs[i])
  }

  /** Saving an edit keeps the ids, in order; saving the same form twice changes nothing more. */
  lemma SaveEditKeepsIds(rs: seq<MindmapNode>, editingId: string, form: MindmapNode)
    ensures Ids(SaveEdit(rs, editingId, form)) == Ids(rs)
    ensures UniqueIds(rs) ==> UniqueIds(SaveEdit(rs, editingId, form))
    ensures SaveEdit(SaveEdit(rs, editingId, form), editingId, form) == SaveEdit(rs, editingId, form)
  {
    var r := SaveEdit(rs, editingId, form);
    assert forall i :: 0 <= i < |rs| ==> r[i].id == rs[i].id;
    assert Ids(r) == Ids(rs) by {
      assert forall i :: 0 <= i < |rs| ==> Ids(r)[i] == Ids(rs)[i];
    }
    SaveEditTwice(rs, editingId, form);
  }

  /** Saving the same form a second time leaves the list as the first save made it. */
  lemma SaveEditTwice(rs: seq<MindmapNode>, editingId: string, form: MindmapNode)
    ensures SaveEdit(SaveEdit(rs, editingId, form), editingId, form) == SaveEdit(rs, editingId, form)
  {
    var r := SaveEdit(rs, editingId, form);
    var r2 := SaveEdit(r, editingId, form);
    forall i | 0 <= i < |r| ensures r2[i] == r[i] {
      if rs[i].id == editingId {
        assert r[i] == WithFields(rs[i], form);
        assert r2[i] == WithFields(r[i], form);
      }
    }
  }

  // ---------------------------------------------------------------------
  // Save: the add branch
  // ---------------------------------------------------------------------

  function Max(a: real, b: real): real
  {
    if a >= b then a else b
  }

  /** The reduce from -1: the largest order index among the records with exactly this parent id, and at least -1. */
  function MaxOrder(rs: seq<MindmapNode>, parentId: Option<string>): (m: real)
    ensures m >= -1.0
    ensures forall i :: 0 <= i < |rs| && rs[i].parentId == parentId ==> rs[i].orderIndex <= m
    ensures m == -1.0 || exists i :: 0 <= i < |rs| && rs[i].parentId == parentId && rs[i].orderIndex == m
  {
    if rs == [] then -1.0
    else
      var init, last := rs[..|rs| - 1], rs[|rs| - 1];
      var m := MaxOrder(init, parentId);
      assert forall i :: 0 <= i < |init| ==> init[i] == rs[i];
      if last.parentId == parentId then Max(m, last.orderIndex) else m
  }

  /** The level of the parent: -1 for a falsy parent id, the found record's level, or 0 when no record has that id. */
  function ParentLevel(rs: seq<MindmapNode>, parentId: Option<string>): real
  {
    if Truthy(parentId) then
      var p := FindById(rs, parentId);
      if p.Some? then p.value.level else 0.0
    else -1.0
  }

  /**
   * The record appended by the add branch. Its id and its two timestamps
   * (two separate clock reads) come from outside.
   */
  function NewRecord(rs: seq<MindmapNode>, form: MindmapNode, newId: string, createdAt: string, updatedAt: string): MindmapNode
  {
    MindmapNode(newId, form.title, form.summary, form.description, form.parentId,
                ParentLevel(rs, form.parentId) + 1.0, form.color, form.size,
                MaxOrder(rs, form.parentId) + 1.0, false, createdAt, updatedAt)
  }

  /** handleSaveNode without an editing node: one new record appended, the old ones untouched. */
  function SaveAdd(rs: seq<MindmapNode>, form: MindmapNode, newId: string, createdAt: string, updatedAt: string): (r: seq<MindmapNode>)
    ensures |r| == |rs| + 1 && r[..|rs|] == rs
    ensures r[|rs|].id == newId && r[|rs|].parentId == form.parentId && !r[|rs|].isCollapsed
    ensures r[|rs|].title == form.title && r[|rs|].summary == form.summary && r[|rs|].description == form.description
    ensures r[|rs|].color == form.color && r[|rs|].size == form.size
    ensures r[|rs|].createdAt == createdAt && r[|rs|].updatedAt == updatedAt
  {
    rs + [NewRecord(rs, form, newId, createdAt, updatedAt)]
  }

  /**
   * The appended record's order index is 0 when it has no sibling or every
   * sibling's is below -1, it is at least one more than every sibling's,
   * and it is one more than the largest sibling order index whenever that
   * is at least -1.
   */
  lemma AddOrderIndex(rs: seq<MindmapNode>, form: MindmapNode, newId: string, createdAt: string, updatedAt: string)
    ensures var n := SaveAdd(rs, form, newId, createdAt, updatedAt)[|rs|];
            && n.orderIndex >= 0.0
            && (forall i :: 0 <= i < |rs| && rs[i].parentId == form.parentId ==> rs[i].orderIndex <= n.orderIndex - 1.0)
            && ((forall i :: 0 <= i < |rs| ==> rs[i].parentId != form.parentId) ==> n.orderIndex == 0.0)
            && ((forall i :: 0 <= i < |rs| && rs[i].parentId == form.parentId ==> rs[i].orderIndex < -1.0) ==> n.orderIndex == 0.0)
            && (forall i :: 0 <= i < |rs| && rs[i].parentId == form.parentId && rs[i].orderIndex >= -1.0 ==>
                  exists j :: 0 <= j < |rs| && rs[j].parentId == form.parentId && n.orderIndex == rs[j].orderIndex + 1.0)
  {
    var m := MaxOrder(rs, form.parentId);
    if forall i :: 0 <= i < |rs| ==> rs[i].parentId != form.parentId {
      assert m == -1.0;
    }
  }

  /**
   * The appended record's level: 0 for a null or empty parent id, one more
   * than the parent's level when a record has that id, and 1 when none has.
   */
  lemma AddLevel(rs: seq<MindmapNode>, form: MindmapNode, newId: string, createdAt: string, updatedAt: string)
    ensures var n := SaveAdd(rs, form, newId, createdAt, updatedAt)[|rs|];
            && (!Truthy(form.parentId) ==> n.level == 0.0)
            && (Truthy(form.parentId) && (forall i :: 0 <= i < |rs| ==> rs[i].id != form.parentId.value) ==> n.level == 1.0)
            && (forall k :: (0 <= k < |rs| && Truthy(form.parentId) && rs[k].id == form.parentId.value
                               && (forall j :: 0 <= j < k ==> rs[j].id != form.parentId.value)) ==> n.level == rs[k].level + 1.0)
  {
    if Truthy(form.parentId) {
      var p := FindById(rs, form.parentId);
      if p.Some? {
        FindByIdFirst(rs, form.parentId);
        var k :| 0 <= k < |rs| && rs[k] == p.value && forall j :: 0 <= j < k ==> Some(rs[j].id) != form.parentId;
        forall k' | 0 <= k' < |rs| && rs[k'].id == form.parentId.value && (forall j :: 0 <= j < k' ==> rs[j].id != form.parentId.value)
          ensures rs[k'].level == p.value.level
        {
        }
      }
    }
  }

  /** A fractional order index, such as 0.5 between two siblings, is counted: the next one is 1.5. */
  lemma FractionalOrderIndex(sibling: MindmapNode, form: MindmapNode, newId: string, createdAt: string, updatedAt: string)
    requires sibling.parentId == form.parentId && sibling.orderIndex == 0.5
    ensures SaveAdd([sibling], form, newId, createdAt, updatedAt)[1].orderIndex == 1.5
  {
    assert [sibling][..0] == [];
  }

  /** The reduce starts from -1, so a sole sibling at -3 does not pull the new order index below 0. */
  lemma NegativeOrderIndex(sibling: MindmapNode, form: MindmapNode, newId: string, createdAt: string, updatedAt: string)
    requires sibling.parentId == form.parentId && sibling.orderIndex == -3.0
    ensures SaveAdd([sibling], form, newId, createdAt, updatedAt)[1].orderIndex == 0.0
  {
    assert [sibling][..0] == [];
  }

  /** With a fresh id the appended list keeps ids unique. */
  lemma SaveAddKeepsUnique(rs: seq<MindmapNode>, form: MindmapNode, newId: string, createdAt: string, updatedAt: string)
    requires UniqueIds(rs) && forall i :: 0 <= i < |rs| ==> rs[i].id != newId
    ensures UniqueIds(SaveAdd(rs, form, newId, createdAt, updatedAt))
  {
    var r := SaveAdd(rs, form, newId, createdAt, updatedAt);
    forall i, j | 0 <= i < |r| && 0 <= j < |r| && r[i].id == r[j].id ensures i == j {
      if i < |rs| && j < |rs| {
        assert r[i] == rs[i] && r[j] == rs[j];
      }
    }
  }
}
