# Radial mindmap viewer — a verified model

This project models the core of a radial mindmap viewer written in
TypeScript/React. The viewer reads a flat list of node records, each naming
its parent by id. From that list it:

- builds one rooted tree whose child lists are sorted by order index;
- lays the tree out on concentric rings around the canvas centre, pruning
  below collapsed nodes;
- draws the visible nodes with their edges and word-wrapped titles;
- lets the user click, hover, pan and zoom;
- edits the record list through toolbar and editor actions (expand all,
  collapse all, drill down, drill up, save).

The modules follow the program's files:

| module | file | models |
|---|---|---|
| `Types` | `types.dfy` | the records of `src/types.ts`: `MindmapNode`, `CanvasNode`, `ViewTransform`, the size class; JavaScript truthiness of a parent id |
| `StableSort` | `stable_sort.dfy` | `Array.prototype.sort` by order index, which is stable |
| `TreeBuilder` | `tree_builder.dfy` | `buildNodeTree` and `sortChildrenRecursively`: the map of empty child lists, the linking pass (a method with a loop), the recursive assembly and the sort |
| `TreeShape` | `tree_shape.dfy` | what the built tree is: linked, no id twice, orphans dropped |
| `RadialLayout` | `radial_layout.dfy` | `calculateNodeRadius`, `calculateNodePositions` with `positionNode` (a class that appends to its output list) and `isAnyParentCollapsed` |
| `SpatialQuery` | `spatial_query.dfy` | `getVisibleNodes` and `findNodeAtPosition` (a count-down loop) |
| `ViewMath` | `view_math.dfy` | the wheel zoom and the drag pan arithmetic |
| `Colors` | `colors.dfy` | `darkenColor`: `parseInt(_, 16)`, the 32-bit shifts and masks, `Math.round`, the clamp, `toString(16)` and `slice(1)` |
| `TextWrap` | `text_wrap.dfy` | `wrapText`: `split(' ')`, the greedy line breaking and the vertical centring |
| `Canvas` | `canvas.dfy` | the canvas component's drag state (a class), the press, move, release, leave and wheel handlers, and `drawConnections`' choice of edges |
| `RecordEdits` | `record_edits.dfy` | the record-list computations of the App handlers |
| `App` | `app_state.dfy` | the App component's state as a class whose handlers reassign its fields |
| `Sequences` | `sequences.dfy` | generic sequence facts the proofs share |

Numbers are Dafny `real`s, which are exact rationals; a record's level and order index are reals too, so fractional values are allowed. Angles are kept in
units of π, so the angle formulas are exact. Cosine and sine come in as a
`Trig` value of two uninterpreted functions. The hit test compares the
squared distance with the squared radius, which is equivalent to the
source's square root because radii are non-negative. The text width
`measureText` reports is a function parameter. A new record's id and its
two timestamps (created_at and updated_at, two separate clock reads) are
parameters, and so is the fetched record list.

## Model

| member | source | states |
|---|---|---|
| RadialLayout.NodeRadius | src/utils/layout.ts:3-11 | the disc radius is 50 for small, 80 for medium and 120 for large |
| TreeBuilder.LastRootIndex | src/utils/layout.ts:20-24 | the root is the last record whose parent id is null: that record has no parent and every later record has one; -1 when there is none |
| TreeBuilder.ChildRecords | src/utils/layout.ts:26-30 | the records naming an id as parent, in list order, never more than the list |
| TreeBuilder.ChildRecordsMembers | src/utils/layout.ts:26-30 | a record is in the child list of an id exactly when it is in the input and names that id as parent |
| TreeBuilder.ChildMap | src/utils/layout.ts:14-32 | after both passes the map has one child list per record id |
| TreeBuilder.EmptyChildLists | src/utils/layout.ts:14-18 | the first pass maps every id of the list, and only those, to an empty child list |
| TreeBuilder.LinkOne | src/utils/layout.ts:22-31 | per record: a null parent id makes it the root candidate; a parent id that is in the map appends it to that list; otherwise it is dropped |
| TreeBuilder.LinkChildren | src/utils/layout.ts:22-32 | the linking loop ends with the last parentless record as root and every child list equal to the filter of the input by parent id |
| TreeBuilder.LinkAdvance | src/utils/layout.ts:22-32 | one pass of the linking loop body takes the state after i records (last root so far, every list the filter of the prefix) to the state after i + 1 |
| TreeBuilder.LinkStep | src/utils/layout.ts:22-32 | one linking step keeps the map's keys and keeps every list equal to the filter of the prefix read so far |
| TreeBuilder.CollectChildren | src/utils/layout.ts:13-32 | with unique ids the two passes give the last root and the child map |
| TreeBuilder.ChildListMembership | src/utils/layout.ts:26-30 | the orphan rule: a record with a parent id sits in some child list exactly when a record has that id |
| TreeBuilder.Grow | src/utils/layout.ts:42-47 | the subtree built for a record has that record at its root |
| TreeBuilder.GrowAll | src/utils/layout.ts:44-45 | one subtree per child record, in the sorted order, so no child is lost |
| TreeBuilder.BuildTree | src/utils/layout.ts:13-40 | buildNodeTree returns null exactly when every record has a parent id, and otherwise a tree rooted at the last parentless record |
| TreeBuilder.BuildNodeTree | src/utils/layout.ts:13-40 | the method with its two passes and the recursive sort returns BuildTree's value |
| TreeBuilder.GrowWellBuilt | src/utils/layout.ts:34-47 | every node of an assembled subtree has as children its child records, sorted, as a permutation that keeps equal order indexes in list order |
| TreeBuilder.BuildTreeWellBuilt | src/utils/layout.ts:34-47 | every child list reachable from the root is sorted ascending by order index and is a stable permutation of the records naming that node as parent |
| TreeBuilder.ChildOffPath | src/utils/layout.ts:42-47 | with unique ids a child record is never on its ancestor chain, so the recursion descends to a record not yet visited |
| StableSort.Insert | src/utils/layout.ts:35 | inserting one record adds it to the multiset and lengthens the list by one |
| StableSort.InsertSorted | src/utils/layout.ts:35 | insertion keeps a list sorted by order index |
| StableSort.SortByOrder | src/utils/layout.ts:35 | the comparator sort gives a list sorted ascending by order index that is a permutation of its input |
| StableSort.SortStable | src/utils/layout.ts:35 | the sort is stable: records with the same order index keep their relative order |
| StableSort.SortMembers | src/utils/layout.ts:35 | sorting neither adds nor loses a record |
| TreeShape.ChildRecordsUnique | src/utils/layout.ts:26-30 | in a list with unique ids each child list has unique ids |
| TreeShape.UniquePermutation | src/utils/layout.ts:44 | a permutation of a list with unique ids has unique ids |
| TreeShape.PathUnique | src/utils/layout.ts:42-47 | two ancestor chains ending at the same id are the same chain |
| TreeShape.BelowSameChild | src/utils/layout.ts:42-47 | an id reached below two children of the same node is reached through one child |
| TreeShape.BelowOffPath | src/utils/layout.ts:42-47 | an id reached below a chain is not an id on the chain |
| TreeShape.ChildRooted | src/utils/layout.ts:42-47 | each child in the built tree is a record of the list that names its parent node's id |
| TreeShape.ChildIdsUnique | src/utils/layout.ts:42-47 | siblings in the built tree have distinct ids |
| TreeShape.TreeBelow | src/utils/layout.ts:42-47 | every id of a subtree is reached by an ancestor chain through the subtree's root |
| TreeShape.SubtreesDisjoint | src/utils/layout.ts:42-47 | the subtrees of two different children share no id |
| TreeShape.LaterSubtreesDisjoint | src/utils/layout.ts:42-47 | the subtree of a child shares no id with the subtrees of the children after it |
| TreeShape.SiblingsDistinct | src/utils/layout.ts:42-47 | children whose subtrees are each distinct and disjoint from the later ones form a forest with no repeated id |
| TreeShape.RootedShape | src/utils/layout.ts:42-47 | every subtree of the built tree is linked to its parent and repeats no id |
| TreeShape.BuildTreeReady | src/utils/layout.ts:13-47 | with unique ids the built tree is what the layout accepts: linked, no id twice, root without parent |
| TreeShape.BuildTreeReached | src/utils/layout.ts:26-30 | orphans are absent: a record in the built tree is the root or names as its parent a record of the list |
| RadialLayout.AngleSpan | src/utils/layout.ts:82 | the span is 2π at level 0 and always in (0, 2π] |
| RadialLayout.ChildAnglesInside | src/utils/layout.ts:83-86 | every child angle is strictly inside (start, start + span), and angles increase with the child's index |
| RadialLayout.IndexOf | src/utils/layout.ts:103 | Array.find by id: the index of the first node with that id, or the length when none has it |
| RadialLayout.Walk | src/utils/layout.ts:100-109 | isAnyParentCollapsed: a falsy parent id gives false, and true is only returned when some node placed before the start is collapsed |
| RadialLayout.WalkCollapsedAncestor | src/utils/layout.ts:100-109 | the walk returns true exactly when some node on the chain of parent ids from the start, each looked up with find, is collapsed |
| RadialLayout.ChainCons | src/utils/layout.ts:103-107 | the node found for a parent id, put in front of a chain from its own parent id, makes a chain from that parent id |
| RadialLayout.ChainTail | src/utils/layout.ts:103-107 | a chain that reaches a collapsed node and starts at an expanded one continues from that node's parent id |
| RadialLayout.Place | src/utils/layout.ts:60-93 | positionNode appends its node first, then the placed children; the output extends the list before it, keeps parents before children, and adds exactly the records of the subtree pruned below collapsed nodes, in pre-order |
| RadialLayout.PlaceChildren | src/utils/layout.ts:85-91 | the forEach places the children in order, each after the ones before it, adding the pruned pre-order of each child |
| RadialLayout.Placement.PositionNode | src/utils/layout.ts:60-93 | the recursive method that pushes onto the shared list leaves it equal to Place's value |
| RadialLayout.Layout | src/utils/layout.ts:49-98 | no root gives an empty list; otherwise the first entry is the root at (w/2, h/2) with its radius, visible, and the records are the pruned pre-order of the tree |
| RadialLayout.CalculateNodePositions | src/utils/layout.ts:49-98 | the method returns Layout's value |
| RadialLayout.LayoutVisible | src/utils/layout.ts:69 | with a linked tree and unique ids every emitted node is visible |
| RadialLayout.PlaceVisible | src/utils/layout.ts:69 | each node positionNode pushes is visible when nothing it can walk to is collapsed |
| RadialLayout.WalkExtend | src/utils/layout.ts:100-109 | the walk gives the same answer on a longer list once its parents resolve in the prefix |
| RadialLayout.PrunedLeaf | src/utils/layout.ts:79 | a collapsed node, or one without children, is emitted alone |
| RadialLayout.PlacedBetweenEntry | src/utils/layout.ts:60-77 | the first entry a placed node pushes is that node at the given point with its disc radius |
| RadialLayout.ChildrenPlaced | src/utils/layout.ts:85-91 | every child from index i on has its own stretch of the output, after the list before the forEach, placed at its ring point |
| RadialLayout.PlaceChildEntries | src/utils/layout.ts:79-91 | below an expanded node each child i is placed after the node's entry at angle ChildAngle(i) of the level's span, on the ring point at NextRadius(radius), with level + 1 |
| SpatialQuery.VisibleNodes | src/utils/layout.ts:111-113 | the filter never lengthens the list |
| SpatialQuery.VisibleMembers | src/utils/layout.ts:111-113 | a node is kept exactly when it is in the list and visible |
| SpatialQuery.VisibleAppend | src/utils/layout.ts:111-113 | the filter keeps list order |
| SpatialQuery.VisibleAll | src/utils/layout.ts:111-113 | a list of visible nodes is kept whole |
| SpatialQuery.CanvasRoundTrip | src/utils/layout.ts:121-122 | the inverse transform undoes the pan-then-scale drawing transform, both ways round |
| SpatialQuery.HitBeforeCorrect | src/utils/layout.ts:126-137 | the backward scan finds a hit exactly when there is one, and no later node is a hit |
| SpatialQuery.NodeAtCorrect | src/utils/layout.ts:115-138 | null exactly when no visible node's disc holds the logical point; otherwise a visible node of the list whose disc holds it, with no later visible node doing so |
| SpatialQuery.FindNodeAtPosition | src/utils/layout.ts:115-138 | the count-down loop returns NodeAt of the inverse-transformed point |
| ViewMath.ClampScale | src/components/MindmapCanvas.tsx:238 | the clamp lands in [0.1, 3], keeps values already in range, and maps values outside to the nearer bound |
| ViewMath.ZoomInRange | src/components/MindmapCanvas.tsx:237-238 | the new scale is clamp(scale · (deltaY > 0 ? 0.9 : 1.1)), always in [0.1, 3] |
| ViewMath.ZoomDirection | src/components/MindmapCanvas.tsx:237-238 | from a scale in range, wheel down never zooms in and wheel up never zooms out |
| ViewMath.AnchorKept | src/components/MindmapCanvas.tsx:240-245 | one coordinate of the anchored pan keeps the logical point under the cursor |
| ViewMath.ZoomKeepsAnchor | src/components/MindmapCanvas.tsx:234-246 | after a wheel step the logical point under the cursor is the same as before |
| ViewMath.DragFollowsPointer | src/components/MindmapCanvas.tsx:184-200 | while dragging the pan moves by exactly the pointer's motion since mousedown, and the scale stays |
| ViewMath.DragNoMotion | src/components/MindmapCanvas.tsx:184-200 | without pointer motion the transform is unchanged |
| Canvas.PressDecides | src/components/MindmapCanvas.tsx:171-186 | a press selects exactly when a visible node's disc holds the point, and names such a node; otherwise it anchors a drag at client − pan |
| Canvas.PressThenDrag | src/components/MindmapCanvas.tsx:183-200 | after a press on empty space, moving the pointer pans by the pointer's motion at the same scale |
| Canvas.CanvasInteraction.constructor | src/components/MindmapCanvas.tsx:25-26 | not dragging, drag origin (0, 0) |
| Canvas.CanvasInteraction.MouseDown | src/components/MindmapCanvas.tsx:171-186 | no canvas: nothing; a hit reports the id and leaves the drag state; a miss starts a drag from client − pan |
| Canvas.CanvasInteraction.MouseMove | src/components/MindmapCanvas.tsx:188-216 | while dragging: a pan to client − dragStart at the same scale; otherwise the hovered id, or none |
| Canvas.CanvasInteraction.MouseUp | src/components/MindmapCanvas.tsx:218-220 | dragging stops |
| Canvas.CanvasInteraction.MouseLeave | src/components/MindmapCanvas.tsx:222-226 | dragging stops and the hover is cleared |
| Canvas.CanvasInteraction.Wheel | src/components/MindmapCanvas.tsx:228-247 | no canvas: no change; otherwise the zoom about the cursor's canvas position |
| Canvas.PressAndDrag | src/components/MindmapCanvas.tsx:171-216 | a press that hits nothing and then a move pan by exactly the pointer's motion |
| Canvas.EdgesSound | src/components/MindmapCanvas.tsx:62-72 | every stroked edge joins a node with a truthy parent id to the first visible node with that id |
| Canvas.EdgesComplete | src/components/MindmapCanvas.tsx:62-72 | a node whose parent id resolves in the visible list gets its edge |
| Canvas.ConnectionsCorrect | src/components/MindmapCanvas.tsx:58-73 | an edge is drawn for a node exactly when its parent id is truthy and a visible node has that id |
| Canvas.DrawConnections | src/components/MindmapCanvas.tsx:58-73 | the forEach with its find strokes exactly Connections of the visible nodes, in order |
| Colors.HexValue | src/components/MindmapCanvas.tsx:156 | a hex digit's value is below 16 |
| Colors.HexDigit | src/components/MindmapCanvas.tsx:167 | toString(16) writes a lower-case digit whose value is the number |
| Colors.ToHex | src/components/MindmapCanvas.tsx:167 | Number.prototype.toString(16) writes at least one lower-case hex digit |
| Colors.HexPrefix | src/components/MindmapCanvas.tsx:156 | the digit run parseInt reads: a prefix of the text, all hex digits, followed by a non-digit or the end |
| Colors.TrimStart | src/components/MindmapCanvas.tsx:156 | parseInt's white-space skip leaves no white space in front and never lengthens the text |
| Colors.TrimStartSuffix | src/components/MindmapCanvas.tsx:156 | the skip drops white space only, and only from the front |
| Colors.ParseIntHex | src/components/MindmapCanvas.tsx:156 | parseInt(_, 16) skips white space, reads a sign and drops 0x; for a text without those it is NaN exactly when it does not start with a hex digit, and otherwise the value of its leading hex digits |
| Colors.ReadDigits | src/components/MindmapCanvas.tsx:156 | after sign and prefix, NaN exactly when no hex digit follows |
| Colors.ParseIntSkipsSpace | src/components/MindmapCanvas.tsx:156 | leading white space does not change what parseInt reads |
| Colors.ParseIntSign | src/components/MindmapCanvas.tsx:156 | a '-' in front negates the result, NaN staying NaN, and a '+' changes nothing |
| Colors.ParseIntHexPrefix | src/components/MindmapCanvas.tsx:156 | a '0x' or '0X' in front is dropped |
| Colors.ParseIntExamples | src/components/MindmapCanvas.tsx:156 | "-1" reads -1, " ff" reads 255 and "0x3c" reads 60 |
| Colors.MixedExamples | src/components/MindmapCanvas.tsx:156 | "-0x1g" reads -1, and "0x" and "- 1" read NaN |
| Colors.OneDigit | src/components/MindmapCanvas.tsx:156 | one hex digit reads as its value |
| Colors.TwoDigits | src/components/MindmapCanvas.tsx:156 | two hex digits read as 16 times the first plus the second |
| Colors.FirstIndex | src/components/MindmapCanvas.tsx:156 | the position of the first occurrence of a character, the length exactly when there is none |
| Colors.RemoveFirst | src/components/MindmapCanvas.tsx:156 | replace('#', '') removes exactly the first '#' and keeps the text before and after it; without one the text is unchanged |
| Colors.ToInt32 | src/components/MindmapCanvas.tsx:158-160 | the bit operators see a signed 32-bit value: NaN is 0, any other value is congruent to the result modulo 2^32, and values in range are kept |
| Colors.Round | src/components/MindmapCanvas.tsx:157 | Math.round lands within half of its argument, halves rounded up |
| Colors.Clamp | src/components/MindmapCanvas.tsx:163-165 | the channel clamp lands in [0, 255], keeps values in range, maps values below to 0 and values above to 255 |
| Colors.HexRoundTrip | src/components/MindmapCanvas.tsx:161-168 | reading back what toString(16) writes gives the number |
| Colors.HexCanonical | src/components/MindmapCanvas.tsx:161-168 | a lower-case digit string without leading zero is what toString(16) writes for its value |
| Colors.ToHexLeadingOne | src/components/MindmapCanvas.tsx:161-168 | a number in [16^k, 2·16^k) prints as k + 1 digits starting with 1 |
| Colors.PackedChannels | src/components/MindmapCanvas.tsx:161-168 | the six digits written for three channels are lower-case hex and read back as the three clamped channels |
| Colors.Repack | src/components/MindmapCanvas.tsx:155-168 | a value below 0x1000000 split into its channels and packed again prints as the digits of the value itself |
| Colors.PackedShape | src/components/MindmapCanvas.tsx:161-168 | 0x1000000 plus three clamped channels prints as seven digits with a leading 1 |
| Colors.DarkenFormat | src/components/MindmapCanvas.tsx:155-169 | the result is '#' plus exactly six lower-case hex digits, each channel the clamp of the input channel minus round(2.55 · percent) |
| Colors.DarkenNumberFormat | src/components/MindmapCanvas.tsx:157-168 | after the read, the arithmetic writes '#' and six lower-case hex digits holding each channel of the number lowered by round(2.55 · percent) and clamped |
| Colors.ColorValue | src/components/MindmapCanvas.tsx:156 | for '#' and six hex digits parseInt reads the six digits, a 24-bit value |
| Colors.DarkenNeverBrighter | src/components/MindmapCanvas.tsx:157-160 | for '#' plus six hex digits and a non-negative percent, no output channel exceeds the input's |
| Colors.DarkenByZero | src/components/MindmapCanvas.tsx:155-169 | darkening a lower-case colour by 0% gives the colour back |
| Colors.DarkenAtZero | src/components/MindmapCanvas.tsx:157-168 | at 0% every channel of the number read is written back unchanged before the clamp |
| Colors.ZeroDigits | src/components/MindmapCanvas.tsx:161-168 | six lower-case digits split into channels and packed again print as the same digits |
| Colors.DarkenNegativeExample | src/components/MindmapCanvas.tsx:155-168 | darkening "#-1" by 20% reads -1, whose shifts give channels -1, 255 and 255, and so writes channels 0, 204 and 204 |
| TextWrap.Split | src/components/MindmapCanvas.tsx:129 | split(' ') gives at least one piece and no piece holds a space |
| TextWrap.SplitJoin | src/components/MindmapCanvas.tsx:129 | joining the pieces with single spaces gives the text back |
| TextWrap.JoinSplit | src/components/MindmapCanvas.tsx:129 | splitting the join of space-free pieces gives the pieces back |
| TextWrap.SplitSpace | src/components/MindmapCanvas.tsx:134 | the pieces of a line extended by " word" are the line's pieces and then the word's |
| TextWrap.StepKeepsWords | src/components/MindmapCanvas.tsx:133-143 | one word of the forEach adds itself, when non-empty, after the words already in the lines |
| TextWrap.RunKeepsWords | src/components/MindmapCanvas.tsx:133-143 | after the loop the lines and current line hold the non-empty words read, in order |
| TextWrap.WrapKeepsWords | src/components/MindmapCanvas.tsx:129-147 | the words of the drawn lines are the non-empty words of the text, in order, each once |
| TextWrap.RunLinesFit | src/components/MindmapCanvas.tsx:133-143 | every line built by the loop fits the width or is a single word |
| TextWrap.WrapLinesFit | src/components/MindmapCanvas.tsx:129-147 | every drawn line is non-empty, and a line wider than maxWidth is a single over-wide word |
| TextWrap.RunBreaks | src/components/MindmapCanvas.tsx:133-143 | over space-free non-empty words, each break was taken because the next word did not fit |
| TextWrap.RunBreaksWhenTooWide | src/components/MindmapCanvas.tsx:133-143 | every finished line was closed by a word whose tentative line was wider than maxWidth while that line was non-empty |
| TextWrap.WrapBreaksWhenTooWide | src/components/MindmapCanvas.tsx:129-147 | for any words, empty ones included, every drawn line but the last was closed by a word whose tentative line was wider than maxWidth while the line was non-empty |
| TextWrap.WrapBreaksBeforeNextWord | src/components/MindmapCanvas.tsx:129-147 | for non-empty words, the first word of each line would not have fitted at the end of the line before it |
| TextWrap.LinesCentred | src/components/MindmapCanvas.tsx:149-152 | consecutive lines are lineHeight apart and the first and last line are symmetric about y |
| TextWrap.WrapText | src/components/MindmapCanvas.tsx:121-153 | the method draws one fillText per wrapped line, line i at (x, startY + i · lineHeight) |
| RecordEdits.OnlyCollapsedKeepsIds | src/App.tsx:61-104 | an edit of collapsed flags keeps the ids in order, and their uniqueness |
| RecordEdits.ExpandAll | src/App.tsx:61-67 | only collapsed flags change, and every one becomes false |
| RecordEdits.CollapseAll | src/App.tsx:69-75 | only collapsed flags change; level-0 records are expanded and all others collapsed |
| RecordEdits.DrillDown | src/App.tsx:77-90 | no selection: unchanged; otherwise only flags change, and a record is expanded exactly when it is the selection or its parent id is the selection |
| RecordEdits.FindById | src/App.tsx:93 | Array.find by id: none exactly when no record has the id, else a record of the list with that id |
| RecordEdits.FindByIdFirst | src/App.tsx:93 | the record found is the first with that id |
| RecordEdits.DrillUp | src/App.tsx:92-102 | without a selected record with a parent id: unchanged; otherwise the records with the parent's id are expanded and every other record is untouched |
| RecordEdits.DrillUpSelection | src/App.tsx:92-103 | the selection moves to the selected record's parent id, or stays when drill up does not apply |
| RecordEdits.DrillUpExpandsParent | src/App.tsx:92-104 | after drilling up, the newly selected record, when it exists, is expanded |
| RecordEdits.ExpandAllForgets | src/App.tsx:61-67 | expand all after any flag edit gives the same list as expand all before it |
| RecordEdits.SaveEdit | src/App.tsx:121-134 | only records with the editing id change, and in them only title, summary, description, colour and size |
| RecordEdits.SaveEditKeepsIds | src/App.tsx:121-134 | saving an edit keeps ids and their uniqueness, and saving the same form twice is the same as once |
| RecordEdits.SaveEditTwice | src/App.tsx:121-134 | saving the same form twice gives the list the first save made |
| RecordEdits.MaxOrder | src/App.tsx:136-141 | the reduce is at least -1, bounds the order index of every record with the parent id, and is -1 or attained |
| RecordEdits.SaveAdd | src/App.tsx:136-161 | exactly one record is appended, the old records untouched, with the new id, the form's parent and fields, not collapsed, with the first clock read as created_at and the second as updated_at, each on its own |
| RecordEdits.AddOrderIndex | src/App.tsx:136-156 | the new order index is 0 without siblings and 0 when every sibling's is below -1; it is at least one more than every sibling's and, when some sibling's index is at least -1, one more than the largest sibling's |
| RecordEdits.AddLevel | src/App.tsx:143-155 | the new level is 0 for a falsy parent id, 1 when no record has the parent id, and one more than the first such record's level otherwise |
| RecordEdits.FractionalOrderIndex | src/App.tsx:136-141 | a sibling with the fractional order index 0.5 makes the new record's order index 1.5 |
| RecordEdits.NegativeOrderIndex | src/App.tsx:136-141 | the reduce starts from -1, so a sole sibling at order index -3 makes the new record's order index 0 |
| RecordEdits.SaveAddKeepsUnique | src/App.tsx:147-161 | with a fresh id the appended list keeps ids unique |
| App.LaidOut | src/App.tsx:51-55 | the composed layout is empty exactly when every record has a parent, starts with the last parentless record at the centre, lists the pruned tree's records and has every node visible |
| App.PositionNodes | src/App.tsx:51-55 | building the tree and positioning it gives LaidOut's value |
| App.MindmapApp.constructor | src/App.tsx:10-17 | empty lists, nothing selected or hovered, the editor closed, the identity transform, a 1200 × 800 canvas |
| App.MindmapApp.LoadNodes | src/App.tsx:41-49 | the fetched list replaces the records; a failed fetch changes nothing |
| App.MindmapApp.UpdateCanvasSize | src/App.tsx:33-39 | the canvas is the window less 384 wide and 72 high |
| App.MindmapApp.RecalculateLayout | src/App.tsx:27-55 | with records present the positioned nodes become the layout of the built tree at the canvas size; nothing else changes |
| App.MindmapApp.SelectedNode | src/App.tsx:183 | the sidebar's record has the selected id and is in the list; none exactly when no record has it |
| App.MindmapApp.NodeClick | src/App.tsx:57-59 | the clicked id becomes the selection; nothing else changes |
| App.MindmapApp.ExpandAllNodes | src/App.tsx:61-67 | the records become ExpandAll of the old ones, ids stay unique, nothing else changes |
| App.MindmapApp.CollapseAllNodes | src/App.tsx:69-75 | the records become CollapseAll of the old ones, ids stay unique, nothing else changes |
| App.MindmapApp.DrillDownSelected | src/App.tsx:77-90 | the records become DrillDown for the selection, ids stay unique, nothing else changes |
| App.MindmapApp.DrillUpSelected | src/App.tsx:92-104 | records and selection become DrillUp and DrillUpSelection, and the new selection's record is expanded |
| App.MindmapApp.FitView | src/App.tsx:106-108 | the transform becomes {0, 0, 1}; nothing else changes |
| App.MindmapApp.AddNode | src/App.tsx:110-113 | the editor opens with no record |
| App.MindmapApp.EditNode | src/App.tsx:115-118 | the editor opens on the given record |
| App.MindmapApp.CloseEditor | src/App.tsx:216 | the editor closes |
| App.MindmapApp.SaveNode | src/App.tsx:120-166 | with a record being edited the list becomes SaveEdit, otherwise SaveAdd; the editor closes with no record; the ids stay unique |
| App.MindmapApp.PointerDown | src/components/MindmapCanvas.tsx:171-186 | a press on a node selects it and leaves the drag state; a press elsewhere starts the canvas drag and keeps the selection; no canvas changes nothing |
| App.MindmapApp.PointerMove | src/components/MindmapCanvas.tsx:188-216 | while dragging the pan follows the pointer at the same scale; otherwise the hovered id is updated |
| App.MindmapApp.PointerUp | src/components/MindmapCanvas.tsx:218-220 | the drag ends; the drag origin is kept |
| App.MindmapApp.PointerLeave | src/components/MindmapCanvas.tsx:222-226 | the drag ends, the drag origin is kept and the hover is cleared |
| App.MindmapApp.WheelAt | src/components/MindmapCanvas.tsx:228-247 | the transform becomes the zoom about the cursor, keeping the scale in [0.1, 3] |

Every App method keeps the class invariant `Valid()`: the scale lies in
[0.1, 3] and the record ids are unique. The layout needs unique ids.

## Left out

- Trigonometry, square roots and IEEE rounding: cosine and sine are uninterpreted; the hit test compares squares; all arithmetic is exact.
- Canvas drawing (paths, fills, shadows, fonts, device pixel ratio, `fillText`), the tooltip and its JSX: `WrapText` returns the text and position of each `fillText` call instead of drawing.
- `getBoundingClientRect`: the canvas rectangle is an `Option<Point>` parameter, None when the canvas is not mounted.
- The JSON fetch, the download and the resize listener are I/O: the fetched list (or its failure) and the window size are parameters.
- `generateId` and the two `new Date()` reads: the new id and the two timestamps (created_at and updated_at, which may differ) are parameters.
- React effects and re-rendering: the layout effect is the explicit method `RecalculateLayout`; re-running it after each change is left to the caller.
- NodeEditor, Sidebar and Toolbar are form and panel UI. NodeEditor only calls save with a record, so the UI never reaches the add branch; `SaveNode` still models that branch.
- Duplicate ids and cyclic parent chains are not guarded against by the code. `BuildTree`, the layout and the App invariant require unique ids, and the tree builder's recursion then cannot cycle.
- `buildNodeTree` iterates a `Map` in insertion order. With unique ids that is the order of the input list, which is the order the model uses.
- Sorting in place and the `children` arrays shared between the map and the tree: the model builds the sorted tree as a value, so aliasing is not modelled.
- `Walk`: isAnyParentCollapsed would loop on a cyclic parent chain; the model requires that every parent id found in the list is found before the node (the layout keeps this), which makes the walk terminate.
- `ToCanvas`, `Zoom` and the canvas handlers require a non-zero scale. The App invariant keeps the scale in [0.1, 3], and the source does not handle scale 0.
- `parseInt` reads with JavaScript's rules: leading white space, a sign, a `0x` prefix, then the hex digits. The channel properties are proved for '#' plus six hex digits, and `DarkenNegativeExample` shows a signed one.
- ParseIntHex: in JavaScript a value of 2^53 or more is rounded to a double before ToInt32; the model keeps the exact integer, which differs only for texts of 14 or more hex digits.
- `CanvasNode`: the layout's object spread also copies the tree node's `children` array into each placed node; nothing reads it, so the model leaves it out.
- The hover and drag state of `PointerMove` and `PointerLeave` in the App class is the canvas object's own: the tooltip text and position are not modelled.
