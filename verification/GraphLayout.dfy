/** The layout of frontend/src/pages/GraphPage.js: one box per service group, boxes packed on
    shelves, nodes on a grid inside their box. All coordinates are whole numbers. */
module GraphLayout {

  const GROUP_PADDING := 24
  const GROUP_HEADER := 32
  const NODE_SPACING_X := 100
  const NODE_SPACING_Y := 80
  const GROUP_GAP := 40
  const NODES_PER_ROW := 3
  const MAX_ROW_WIDTH := 1200

  datatype Node = Node(id: string, group: string)
  datatype Box = Box(x: int, y: int, width: int, height: int)
  datatype Point = Point(x: int, y: int)
  datatype Layout = Layout(boxes: map<string, Box>, centres: map<string, Point>, svgWidth: int, svgHeight: int)

  type Groups = map<string, seq<string>>

  function Min(a: int, b: int): int { if a < b then a else b }

  function Max(a: int, b: int): int { if a < b then b else a }

  // ----- grouping

  function GroupOf(n: Node): string {
    if n.group == "" then "Other" else n.group
  }

  ghost predicate DistinctIds(nodes: seq<Node>) {
    forall i, j :: 0 <= i < j < |nodes| ==> nodes[i].id != nodes[j].id
  }

  /** The ids of the nodes of a group, in node order. */
  function Members(nodes: seq<Node>, group: string): seq<string> {
    if nodes == [] then []
    else
      var n := |nodes| - 1;
      Members(nodes[..n], group) + if GroupOf(nodes[n]) == group then [nodes[n].id] else []
  }

  ghost predicate Grouped(nodes: seq<Node>, groups: Groups) {
    && (forall g :: g in groups ==> groups[g] == Members(nodes, g) && groups[g] != [])
    && (forall g :: g !in groups ==> Members(nodes, g) == [])
  }

  method GroupNodes(nodes: seq<Node>) returns (groups: Groups)
    ensures Grouped(nodes, groups)
  {
    groups := map[];
    for k := 0 to |nodes|
      invariant forall g :: g in groups ==> groups[g] == Members(nodes[..k], g) && groups[g] != []
      invariant forall g :: g !in groups ==> Members(nodes[..k], g) == []
    {
      assert nodes[..k + 1][..k] == nodes[..k];
      var g := GroupOf(nodes[k]);
      if g !in groups {
        groups := groups[g := []];
      }
      groups := groups[g := groups[g] + [nodes[k].id]];
    }
    assert nodes[..|nodes|] == nodes;
  }

  /** An id sits in a group exactly if some node with that id belongs to it. */
  lemma {:induction false} MembersExact(nodes: seq<Node>, group: string, id: string)
    ensures id in Members(nodes, group)
       <==> exists k :: 0 <= k < |nodes| && nodes[k].id == id && GroupOf(nodes[k]) == group
  {
    if nodes == [] {
    } else {
      var n := |nodes| - 1;
      MembersExact(nodes[..n], group, id);
      assert forall k :: 0 <= k < n ==> nodes[..n][k] == nodes[k];
    }
  }

  /** With distinct node ids every id has one place: one group, one index. */
  ghost predicate OnePlaceEach(groups: Groups) {
    forall g, h, i, j ::
      (g in groups && h in groups && 0 <= i < |groups[g]| && 0 <= j < |groups[h]| && groups[g][i] == groups[h][j])
      ==> g == h && i == j
  }

  lemma {:induction false} MembersDistinct(nodes: seq<Node>, g: string, h: string, i: nat, j: nat)
    requires DistinctIds(nodes)
    requires i < |Members(nodes, g)| && j < |Members(nodes, h)|
    requires Members(nodes, g)[i] == Members(nodes, h)[j]
    ensures g == h && i == j
  {
    var n := |nodes| - 1;
    var id := nodes[n].id;
    MembersExact(nodes[..n], g, id);
    MembersExact(nodes[..n], h, id);
    assert forall k :: 0 <= k < n ==> nodes[..n][k] == nodes[k];
    var early := Members(nodes[..n], g);
    var late := Members(nodes[..n], h);
    assert forall x :: 0 <= x < |early| ==> early[x] in early;
    assert forall x :: 0 <= x < |late| ==> late[x] in late;
    if i < |early| && j < |late| {
      MembersDistinct(nodes[..n], g, h, i, j);
    }
  }

  lemma GroupsHaveOnePlaceEach(nodes: seq<Node>, groups: Groups)
    requires DistinctIds(nodes) && Grouped(nodes, groups)
    ensures OnePlaceEach(groups)
  {
    forall g, h, i, j | g in groups && h in groups && 0 <= i < |groups[g]| && 0 <= j < |groups[h]|
      && groups[g][i] == groups[h][j]
      ensures g == h && i == j
    {
      MembersDistinct(nodes, g, h, i, j);
    }
  }

  // ----- geometry

  function BoxWidth(n: nat): int {
    Min(n, NODES_PER_ROW) * NODE_SPACING_X + GROUP_PADDING * 2
  }

  function BoxHeight(n: nat): int {
    (n + NODES_PER_ROW - 1) / NODES_PER_ROW * NODE_SPACING_Y + GROUP_HEADER + GROUP_PADDING * 2
  }

  /** Where the `i`-th node of a box stands. */
  function Centre(b: Box, i: nat): Point {
    Point(b.x + GROUP_PADDING + i % NODES_PER_ROW * NODE_SPACING_X + NODE_SPACING_X / 2,
          b.y + GROUP_HEADER + GROUP_PADDING + i / NODES_PER_ROW * NODE_SPACING_Y + NODE_SPACING_Y / 2)
  }

  /** At least a gap apart, horizontally or vertically. */
  predicate Apart(a: Box, b: Box) {
    || a.x + a.width + GROUP_GAP <= b.x || b.x + b.width + GROUP_GAP <= a.x
    || a.y + a.height + GROUP_GAP <= b.y || b.y + b.height + GROUP_GAP <= a.y
  }

  /** Inside the drawing with a gap left on every side. */
  predicate Fits(b: Box, width: int, height: int) {
    && GROUP_GAP <= b.x && b.x + b.width + GROUP_GAP <= width
    && GROUP_GAP <= b.y && b.y + b.height + GROUP_GAP <= height
  }

  predicate Holds(b: Box, p: Point) {
    && b.x + GROUP_PADDING <= p.x <= b.x + b.width - GROUP_PADDING
    && b.y + GROUP_HEADER + GROUP_PADDING <= p.y <= b.y + b.height - GROUP_PADDING
  }

  ghost predicate Sized(b: Box, n: nat) {
    b.width == BoxWidth(n) && b.height == BoxHeight(n)
  }

  /** On a shelf above `rowY`, or on the current shelf left of `cursorX`. */
  ghost predicate Shelved(b: Box, cursorX: int, rowY: int, rowMaxHeight: int) {
    && GROUP_GAP <= b.x && GROUP_GAP <= b.y
    && b.x + b.width + GROUP_GAP <= MAX_ROW_WIDTH
    && (|| b.y + b.height + GROUP_GAP <= rowY
        || (b.y == rowY && b.x + b.width + GROUP_GAP <= cursorX && b.height <= rowMaxHeight))
  }

  ghost predicate GoodBoxes(groups: Groups, boxes: map<string, Box>) {
    && (forall g :: g in boxes ==> g in groups && Sized(boxes[g], |groups[g]|))
    && (forall g, h :: g in boxes && h in boxes && g != h ==> Apart(boxes[g], boxes[h]))
  }

  ghost predicate GoodCentres(groups: Groups, boxes: map<string, Box>, centres: map<string, Point>) {
    forall g, i :: g in boxes && g in groups && 0 <= i < |groups[g]| ==>
      groups[g][i] in centres && centres[groups[g][i]] == Centre(boxes[g], i)
  }

  method PlaceNodes(ids: seq<string>, box: Box, centres0: map<string, Point>) returns (centres: map<string, Point>)
    requires forall i, j :: 0 <= i < j < |ids| ==> ids[i] != ids[j]
    ensures forall i :: 0 <= i < |ids| ==> ids[i] in centres && centres[ids[i]] == Centre(box, i)
    ensures forall id :: id in centres0 && id !in ids ==> id in centres && centres[id] == centres0[id]
  {
    centres := centres0;
    for i := 0 to |ids|
      invariant forall k :: 0 <= k < i ==> ids[k] in centres && centres[ids[k]] == Centre(box, k)
      invariant forall id :: id in centres0 && id !in ids ==> id in centres && centres[id] == centres0[id]
    {
      centres := centres[ids[i] := Centre(box, i)];
    }
  }

  lemma BoxIsSmall(n: nat)
    ensures 1 < BoxWidth(n) <= MAX_ROW_WIDTH - 3 * GROUP_GAP && 0 < BoxHeight(n)
  {
  }

  ghost predicate AllShelved(boxes: map<string, Box>, cursorX: int, rowY: int, rowMaxHeight: int) {
    forall g :: g in boxes ==> Shelved(boxes[g], cursorX, rowY, rowMaxHeight)
  }

  /** The next box on the shelf keeps clear of every box placed before it. */
  lemma ShelveNext(groups: Groups, boxes: map<string, Box>, name: string,
                   cursorX: int, rowY: int, rowMaxHeight: int)
    requires GoodBoxes(groups, boxes) && AllShelved(boxes, cursorX, rowY, rowMaxHeight)
    requires name in groups && name !in boxes
    requires cursorX >= GROUP_GAP && rowY >= GROUP_GAP
    requires cursorX + BoxWidth(|groups[name]|) + GROUP_GAP <= MAX_ROW_WIDTH || cursorX <= GROUP_GAP + 1
    ensures var box := Box(cursorX, rowY, BoxWidth(|groups[name]|), BoxHeight(|groups[name]|));
            && GoodBoxes(groups, boxes[name := box])
            && AllShelved(boxes[name := box], cursorX + box.width + GROUP_GAP, rowY, Max(rowMaxHeight, box.height))
  {
    BoxIsSmall(|groups[name]|);
    var box := Box(cursorX, rowY, BoxWidth(|groups[name]|), BoxHeight(|groups[name]|));
    var grown := boxes[name := box];
    forall g, h | g in grown && h in grown && g != h ensures Apart(grown[g], grown[h]) {
      if g == name {
        assert Shelved(boxes[h], cursorX, rowY, rowMaxHeight);
      } else if h == name {
        assert Shelved(boxes[g], cursorX, rowY, rowMaxHeight);
      }
    }
  }

  lemma NewCentres(groups: Groups, boxes: map<string, Box>, before: map<string, Point>,
                   name: string, box: Box, centres: map<string, Point>)
    requires OnePlaceEach(groups) && GoodCentres(groups, boxes, before)
    requires name in groups && name !in boxes
    requires forall i :: 0 <= i < |groups[name]| ==>
               groups[name][i] in centres && centres[groups[name][i]] == Centre(box, i)
    requires forall id :: id in before && id !in groups[name] ==> id in centres && centres[id] == before[id]
    ensures GoodCentres(groups, boxes[name := box], centres)
  {
    forall g, i | g in boxes && g in groups && 0 <= i < |groups[g]|
      ensures groups[g][i] in centres && centres[groups[g][i]] == Centre(boxes[g], i)
    {
      assert groups[g][i] !in groups[name];
    }
  }

  // ----- shelves

  /** A box follows on from the one before: beside it on its shelf if it fits there, else at the start of a
      new shelf, right below the tallest box of the last one. */
  ghost predicate FollowsOn(placed: seq<Box>, k: nat)
    requires k + 1 < |placed|
  {
    var b, c := placed[k], placed[k + 1];
    if b.x + b.width + GROUP_GAP + c.width + GROUP_GAP <= MAX_ROW_WIDTH
    then c.y == b.y && c.x == b.x + b.width + GROUP_GAP
    else c.x == GROUP_GAP && RightBelow(placed[..k + 1], b.y, c.y)
  }

  /** Right below the tallest of the boxes that stand on the shelf at `shelf`. */
  ghost predicate RightBelow(placed: seq<Box>, shelf: int, y: int) {
    && (forall b :: b in placed && b.y == shelf ==> b.y + b.height + GROUP_GAP <= y)
    && exists b :: b in placed && b.y == shelf && b.y + b.height + GROUP_GAP == y
  }

  /** Boxes in the order in which they were placed. */
  ghost predicate OnShelves(placed: seq<Box>) {
    && (placed != [] ==> placed[0].x == GROUP_GAP && placed[0].y == GROUP_GAP)
    && forall k :: 0 <= k < |placed| - 1 ==> FollowsOn(placed, k)
  }

  /** Where the next box would go: right of the last one, and under the tallest of its shelf. */
  ghost predicate AtCursor(placed: seq<Box>, cursorX: int, rowY: int, rowMaxHeight: int) {
    if placed == [] then cursorX == GROUP_GAP && rowY == GROUP_GAP && rowMaxHeight == 0
    else
      var last := placed[|placed| - 1];
      && cursorX == last.x + last.width + GROUP_GAP && rowY == last.y && last.width > 1 && last.x >= GROUP_GAP
      && RightBelow(placed, rowY, rowY + rowMaxHeight + GROUP_GAP)
  }

  lemma ShelfStep(placed: seq<Box>, cursorX: int, rowY: int, rowMaxHeight: int, box: Box)
    requires OnShelves(placed) && AtCursor(placed, cursorX, rowY, rowMaxHeight) && box.width > 1
    requires if cursorX + box.width + GROUP_GAP > MAX_ROW_WIDTH && cursorX > GROUP_GAP + 1
             then box.x == GROUP_GAP && box.y == rowY + rowMaxHeight + GROUP_GAP
             else box.x == cursorX && box.y == rowY
    requires placed == [] ==> cursorX + box.width + GROUP_GAP <= MAX_ROW_WIDTH
    ensures OnShelves(placed + [box])
  {
    var more := placed + [box];
    forall k | 0 <= k < |more| - 1 ensures FollowsOn(more, k) {
      if k + 1 < |placed| {
        assert more[..k + 1] == placed[..k + 1];
        assert FollowsOn(placed, k);
      } else {
        assert more[..k + 1] == placed;
      }
    }
  }

  lemma SameShelf(placed: seq<Box>, cursorX: int, rowY: int, rowMaxHeight: int, box: Box)
    requires AtCursor(placed, cursorX, rowY, rowMaxHeight)
    requires box.x == cursorX && box.y == rowY && box.width > 1 && box.height > 0 && cursorX >= GROUP_GAP
    ensures AtCursor(placed + [box], cursorX + box.width + GROUP_GAP, rowY, Max(rowMaxHeight, box.height))
  {
    var more := placed + [box];
    assert box in more;
    if placed != [] && box.height < rowMaxHeight {
      var b :| b in placed && b.y == rowY && b.y + b.height + GROUP_GAP == rowY + rowMaxHeight + GROUP_GAP;
      assert b in more;
    }
  }

  lemma NewShelf(placed: seq<Box>, rowY: int, box: Box)
    requires (forall b :: b in placed ==> b.y < rowY) && box.y == rowY && box.x == GROUP_GAP
    requires box.width > 1 && box.height > 0
    ensures AtCursor(placed + [box], box.x + box.width + GROUP_GAP, rowY, box.height)
  {
    assert box in placed + [box];
  }

  /** The boxes in the order of their groups. */
  ghost predicate InOrder(order: seq<string>, boxes: map<string, Box>, placed: seq<Box>) {
    |placed| <= |order| && forall i :: 0 <= i < |placed| ==> order[i] in boxes && boxes[order[i]] == placed[i]
  }

  lemma EarlierBoxes(groups: Groups, order: seq<string>, boxes: map<string, Box>, placed: seq<Box>,
                     x: int, y: int, tallest: int)
    requires InOrder(order, boxes, placed) && GoodBoxes(groups, boxes)
    requires AllShelved(boxes, x, y, tallest) && tallest >= 0
    ensures forall b :: b in placed ==> b.y < y + tallest + GROUP_GAP
  {
    forall b | b in placed ensures b.y < y + tallest + GROUP_GAP {
      var i :| 0 <= i < |placed| && placed[i] == b;
      assert Shelved(boxes[order[i]], x, y, tallest);
      BoxIsSmall(|groups[order[i]]|);
    }
  }

  lemma InOrderNext(order: seq<string>, boxes: map<string, Box>, placed: seq<Box>, box: Box)
    requires InOrder(order, boxes, placed) && |placed| < |order| && order[|placed|] !in boxes
    ensures InOrder(order, boxes[order[|placed|] := box], placed + [box])
  {
  }

  lemma CursorStep(placed: seq<Box>, x: int, y: int, tallest: int, box: Box, rowMaxHeight: int)
    requires AtCursor(placed, x, y, tallest) && x >= GROUP_GAP && box.width > 1 && box.height > 0
    requires forall b :: b in placed ==> b.y < y + tallest + GROUP_GAP
    requires if x + box.width + GROUP_GAP > MAX_ROW_WIDTH && x > GROUP_GAP + 1
             then box.x == GROUP_GAP && box.y == y + tallest + GROUP_GAP && rowMaxHeight == 0
             else box.x == x && box.y == y && rowMaxHeight == tallest
    ensures AtCursor(placed + [box], box.x + box.width + GROUP_GAP, box.y, Max(rowMaxHeight, box.height))
  {
    if x + box.width + GROUP_GAP > MAX_ROW_WIDTH && x > GROUP_GAP + 1 {
      NewShelf(placed, box.y, box);
    } else {
      SameShelf(placed, x, y, tallest, box);
    }
  }

  /** All that holds of the boxes placed so far and the cursor. */
  ghost predicate Shelving(order: seq<string>, boxes: map<string, Box>, placed: seq<Box>,
                           cursorX: int, rowY: int, rowMaxHeight: int) {
    InOrder(order, boxes, placed) && OnShelves(placed) && AtCursor(placed, cursorX, rowY, rowMaxHeight)
  }

  lemma ShelvingStep(groups: Groups, order: seq<string>, boxes: map<string, Box>, placed: seq<Box>,
                     x: int, y: int, tallest: int, n: nat, box: Box, rowMaxHeight: int)
    requires Shelving(order, boxes, placed, x, y, tallest) && |placed| < |order| && order[|placed|] !in boxes
    requires GoodBoxes(groups, boxes) && AllShelved(boxes, x, y, tallest) && tallest >= 0 && x >= GROUP_GAP
    requires Sized(box, n)
    requires if x + box.width + GROUP_GAP > MAX_ROW_WIDTH && x > GROUP_GAP + 1
             then box.x == GROUP_GAP && box.y == y + tallest + GROUP_GAP && rowMaxHeight == 0
             else box.x == x && box.y == y && rowMaxHeight == tallest
    ensures Shelving(order, boxes[order[|placed|] := box], placed + [box],
                     box.x + box.width + GROUP_GAP, box.y, Max(rowMaxHeight, box.height))
  {
    EarlierBoxes(groups, order, boxes, placed, x, y, tallest);
    ShelvingWithout(order, boxes, placed, x, y, tallest, n, box, rowMaxHeight);
  }

  lemma ShelvingWithout(order: seq<string>, boxes: map<string, Box>, placed: seq<Box>,
                        x: int, y: int, tallest: int, n: nat, box: Box, rowMaxHeight: int)
    requires Shelving(order, boxes, placed, x, y, tallest) && |placed| < |order| && order[|placed|] !in boxes
    requires x >= GROUP_GAP && Sized(box, n) && forall b :: b in placed ==> b.y < y + tallest + GROUP_GAP
    requires if x + box.width + GROUP_GAP > MAX_ROW_WIDTH && x > GROUP_GAP + 1
             then box.x == GROUP_GAP && box.y == y + tallest + GROUP_GAP && rowMaxHeight == 0
             else box.x == x && box.y == y && rowMaxHeight == tallest
    ensures Shelving(order, boxes[order[|placed|] := box], placed + [box],
                     box.x + box.width + GROUP_GAP, box.y, Max(rowMaxHeight, box.height))
  {
    BoxIsSmall(n);
    InOrderNext(order, boxes, placed, box);
    ShelfStep(placed, x, y, tallest, box);
    CursorStep(placed, x, y, tallest, box, rowMaxHeight);
  }

  // ----- packing

  /** The groups of a part of the order have been packed. */
  ghost predicate Packing(groups: Groups, done: seq<string>, boxes: map<string, Box>, centres: map<string, Point>,
                          cursorX: int, rowY: int, rowMaxHeight: int) {
    && cursorX >= GROUP_GAP && rowY >= GROUP_GAP && rowMaxHeight >= 0
    && (forall g :: g in boxes <==> g in done)
    && GoodBoxes(groups, boxes) && AllShelved(boxes, cursorX, rowY, rowMaxHeight)
    && GoodCentres(groups, boxes, centres)
  }

  ghost predicate ListsOnce(order: seq<string>, groups: Groups) {
    && (forall i, j :: 0 <= i < j < |order| ==> order[i] != order[j])
    && forall g :: g in order <==> g in groups
  }

  /** The boxes stand on shelves in their order, and the drawing ends a gap below the last shelf and two
      gaps right of the last box, or at its usual width. */
  ghost predicate Drawn(order: seq<string>, placed: seq<Box>, layout: Layout) {
    && InOrder(order, layout.boxes, placed) && |placed| == |order| && OnShelves(placed)
    && (placed != [] ==>
          var last := placed[|placed| - 1];
          && layout.svgWidth == Max(MAX_ROW_WIDTH, last.x + last.width + 2 * GROUP_GAP)
          && RightBelow(placed, last.y, layout.svgHeight))
  }

  /** Packs the groups in the order given; the page sorts them by size, and the guarantees hold for
      every order. */
  method PackGroups(groups: Groups, order: seq<string>) returns (layout: Layout, ghost placed: seq<Box>)
    requires OnePlaceEach(groups) && ListsOnce(order, groups)
    ensures layout.boxes.Keys == groups.Keys
    ensures GoodBoxes(groups, layout.boxes)
    ensures forall g :: g in layout.boxes ==> Fits(layout.boxes[g], layout.svgWidth, layout.svgHeight)
    ensures GoodCentres(groups, layout.boxes, layout.centres)
    ensures Drawn(order, placed, layout)
  {
    var boxes: map<string, Box> := map[];
    var centres: map<string, Point> := map[];
    var cursorX, rowY, rowMaxHeight := GROUP_GAP, GROUP_GAP, 0;
    placed := [];
    for k := 0 to |order|
      invariant Packing(groups, order[..k], boxes, centres, cursorX, rowY, rowMaxHeight)
      invariant |placed| == k && Shelving(order, boxes, placed, cursorX, rowY, rowMaxHeight)
    {
      NextInOrder(groups, order, k);
      boxes, centres, cursorX, rowY, rowMaxHeight, placed :=
        PackOne(groups, order[k], order[..k], order, boxes, centres, cursorX, rowY, rowMaxHeight, placed);
    }
    var maxHeight := rowY + rowMaxHeight + GROUP_GAP;
    var totalWidth := Max(MAX_ROW_WIDTH, cursorX + GROUP_GAP);
    layout := Layout(boxes, centres, totalWidth, maxHeight);
    AllPacked(groups, order, boxes, centres, cursorX, rowY, rowMaxHeight);
  }

  lemma NextInOrder(groups: Groups, order: seq<string>, k: nat)
    requires ListsOnce(order, groups) && k < |order|
    ensures order[k] in groups && order[k] !in order[..k] && order[..k + 1] == order[..k] + [order[k]]
  {
    assert order[k] in order;
  }

  lemma AllPacked(groups: Groups, order: seq<string>, boxes: map<string, Box>, centres: map<string, Point>,
                  cursorX: int, rowY: int, rowMaxHeight: int)
    requires ListsOnce(order, groups)
    requires Packing(groups, order[..|order|], boxes, centres, cursorX, rowY, rowMaxHeight)
    ensures boxes.Keys == groups.Keys
    ensures forall g :: g in boxes ==>
              Fits(boxes[g], Max(MAX_ROW_WIDTH, cursorX + GROUP_GAP), rowY + rowMaxHeight + GROUP_GAP)
  {
    assert order[..|order|] == order;
    forall g | g in boxes
      ensures Fits(boxes[g], Max(MAX_ROW_WIDTH, cursorX + GROUP_GAP), rowY + rowMaxHeight + GROUP_GAP)
    {
      assert Shelved(boxes[g], cursorX, rowY, rowMaxHeight);
    }
  }

  /** Where a box of this size goes: on to a new shelf if it does not fit on this one. */
  method NextBox(n: nat, cursorX0: int, rowY0: int, rowMaxHeight0: int) returns (box: Box, rowMaxHeight: int)
    ensures Sized(box, n)
    ensures if cursorX0 + box.width + GROUP_GAP > MAX_ROW_WIDTH && cursorX0 > GROUP_GAP + 1
            then box.x == GROUP_GAP && box.y == rowY0 + rowMaxHeight0 + GROUP_GAP && rowMaxHeight == 0
            else box.x == cursorX0 && box.y == rowY0 && rowMaxHeight == rowMaxHeight0
  {
    var cursorX, rowY := cursorX0, rowY0;
    rowMaxHeight := rowMaxHeight0;
    var boxWidth, boxHeight := BoxWidth(n), BoxHeight(n);
    if cursorX + boxWidth + GROUP_GAP > MAX_ROW_WIDTH && cursorX > GROUP_GAP + 1 {
      rowY := rowY + rowMaxHeight + GROUP_GAP;
      cursorX := GROUP_GAP;
      rowMaxHeight := 0;
    }
    box := Box(cursorX, rowY, boxWidth, boxHeight);
  }

  /** The next group: its box, then its nodes. */
  method PackOne(groups: Groups, name: string, ghost done: seq<string>, ghost order: seq<string>,
                 boxes0: map<string, Box>, centres0: map<string, Point>,
                 cursorX0: int, rowY0: int, rowMaxHeight0: int, ghost placed0: seq<Box>)
    returns (boxes: map<string, Box>, centres: map<string, Point>, cursorX: int, rowY: int, rowMaxHeight: int,
             ghost placed: seq<Box>)
    requires OnePlaceEach(groups) && name in groups && name !in done
    requires Packing(groups, done, boxes0, centres0, cursorX0, rowY0, rowMaxHeight0)
    requires Shelving(order, boxes0, placed0, cursorX0, rowY0, rowMaxHeight0)
    requires |placed0| < |order| && order[|placed0|] == name
    ensures Packing(groups, done + [name], boxes, centres, cursorX, rowY, rowMaxHeight)
    ensures |placed| == |placed0| + 1 && Shelving(order, boxes, placed, cursorX, rowY, rowMaxHeight)
  {
    var box, tallest := NextBox(|groups[name]|, cursorX0, rowY0, rowMaxHeight0);
    IdsDistinct(groups, name);
    centres := PlaceNodes(groups[name], box, centres0);
    ShelvingStep(groups, order, boxes0, placed0, cursorX0, rowY0, rowMaxHeight0, |groups[name]|, box, tallest);
    PackingStep(groups, done, boxes0, centres0, cursorX0, rowY0, rowMaxHeight0, name, box, centres, tallest);
    boxes, placed := boxes0[name := box], placed0 + [box];
    cursorX, rowY, rowMaxHeight := box.x + box.width + GROUP_GAP, box.y, Max(tallest, box.height);
  }

  lemma IdsDistinct(groups: Groups, name: string)
    requires OnePlaceEach(groups) && name in groups
    ensures forall i, j :: 0 <= i < j < |groups[name]| ==> groups[name][i] != groups[name][j]
  {
  }

  lemma PackingStep(groups: Groups, done: seq<string>, boxes: map<string, Box>, before: map<string, Point>,
                    x: int, y: int, tallest: int, name: string, box: Box, centres: map<string, Point>,
                    rowMaxHeight: int)
    requires OnePlaceEach(groups) && Packing(groups, done, boxes, before, x, y, tallest)
    requires name in groups && name !in done && Sized(box, |groups[name]|)
    requires if x + box.width + GROUP_GAP > MAX_ROW_WIDTH && x > GROUP_GAP + 1
             then box.x == GROUP_GAP && box.y == y + tallest + GROUP_GAP && rowMaxHeight == 0
             else box.x == x && box.y == y && rowMaxHeight == tallest
    requires forall i :: 0 <= i < |groups[name]| ==>
               groups[name][i] in centres && centres[groups[name][i]] == Centre(box, i)
    requires forall id :: id in before && id !in groups[name] ==> id in centres && centres[id] == before[id]
    ensures Packing(groups, done + [name], boxes[name := box], centres,
                    box.x + box.width + GROUP_GAP, box.y, Max(rowMaxHeight, box.height))
  {
    BoxIsSmall(|groups[name]|);
    assert AllShelved(boxes, box.x, box.y, rowMaxHeight);
    ShelveNext(groups, boxes, name, box.x, box.y, rowMaxHeight);
    NewCentres(groups, boxes, before, name, box, centres);
  }

  /** The grid: the first node in the corner, each further one a column on, or a row down at the left
      after three; the box ends where the last column and the last row do. */
  lemma GridExact(b: Box, n: nat, i: nat)
    requires Sized(b, n) && i < n
    ensures Centre(b, 0) == Point(b.x + GROUP_PADDING + 50, b.y + GROUP_HEADER + GROUP_PADDING + 40)
    ensures var p, q := Centre(b, i), Centre(b, i + 1);
            if (i + 1) % 3 == 0 then q == Point(Centre(b, 0).x, p.y + 80) else q == Point(p.x + 100, p.y)
    ensures Centre(b, if n < 3 then n - 1 else 2).x + 50 + GROUP_PADDING == b.x + b.width
    ensures Centre(b, n - 1).y + 40 + GROUP_PADDING == b.y + b.height
  {
    assert (n - 1) / 3 + 1 == (n + 2) / 3;
  }

  /** A node stands inside its own box, clear of the padding and the header. */
  lemma CentreInBox(b: Box, n: nat, i: nat)
    requires Sized(b, n) && i < n
    ensures Holds(b, Centre(b, i))
  {
    assert i / NODES_PER_ROW + 1 <= (n + NODES_PER_ROW - 1) / NODES_PER_ROW;
    assert i % NODES_PER_ROW + 1 <= Min(n, NODES_PER_ROW);
  }

  function Square(n: int): int { n * n }

  lemma SquareGrows(n: int, bound: int)
    requires bound >= 0
    requires n >= bound || n <= -bound
    ensures Square(n) >= bound * bound
  {
    if n >= bound {
      assert n * n >= bound * n >= bound * bound;
    } else {
      assert (-n) * (-n) >= bound * (-n) >= bound * bound;
    }
  }

  predicate PointsApart(p: Point, q: Point) {
    Square(p.x - q.x) + Square(p.y - q.y) >= Square(80)
  }

  lemma FarOnOneAxis(p: Point, q: Point)
    requires p.x - q.x >= 80 || p.x - q.x <= -80 || p.y - q.y >= 80 || p.y - q.y <= -80
    ensures PointsApart(p, q)
  {
    if p.x - q.x >= 80 || p.x - q.x <= -80 {
      SquareGrows(p.x - q.x, 80);
      SquareGrows(p.y - q.y, 0);
    } else {
      SquareGrows(p.y - q.y, 80);
      SquareGrows(p.x - q.x, 0);
    }
  }

  lemma {:induction false} OneBoxCentresApart(b: Box, i: nat, j: nat)
    requires i != j
    ensures PointsApart(Centre(b, i), Centre(b, j))
  {
    if i / NODES_PER_ROW == j / NODES_PER_ROW {
      assert i % NODES_PER_ROW != j % NODES_PER_ROW;
    }
    FarOnOneAxis(Centre(b, i), Centre(b, j));
  }

  lemma {:induction false} TwoBoxCentresApart(b: Box, n: nat, i: nat, c: Box, m: nat, j: nat)
    requires Sized(b, n) && Sized(c, m) && i < n && j < m && Apart(b, c)
    ensures PointsApart(Centre(b, i), Centre(c, j))
  {
    CentreInBox(b, n, i);
    CentreInBox(c, m, j);
    var p, q := Centre(b, i), Centre(c, j);
    HeldApart(b, p, c, q);
    FarOnOneAxis(p, q);
  }

  lemma HeldApart(b: Box, p: Point, c: Box, q: Point)
    requires Holds(b, p) && Holds(c, q) && Apart(b, c)
    ensures p.x - q.x >= 80 || p.x - q.x <= -80 || p.y - q.y >= 80 || p.y - q.y <= -80
  {
  }

  /** Any two distinct nodes of a good layout stand at least 80 apart, centre to centre. */
  lemma {:induction false} CentresAreApart(groups: Groups, boxes: map<string, Box>, centres: map<string, Point>,
                        g: string, i: nat, h: string, j: nat)
    requires GoodBoxes(groups, boxes) && GoodCentres(groups, boxes, centres)
    requires g in boxes && h in boxes && i < |groups[g]| && j < |groups[h]|
    requires g != h || i != j
    ensures PointsApart(centres[groups[g][i]], centres[groups[h][j]])
  {
    if g == h {
      OneBoxCentresApart(boxes[g], i, j);
    } else {
      TwoBoxCentresApart(boxes[g], |groups[g]|, i, boxes[h], |groups[h]|, j);
    }
  }

  /** The names of the groups the nodes fall into, each once. */
  ghost predicate ListsGroups(nodes: seq<Node>, order: seq<string>) {
    && (forall i, j :: 0 <= i < j < |order| ==> order[i] != order[j])
    && (forall g :: g in order <==> exists k :: 0 <= k < |nodes| && GroupOf(nodes[k]) == g)
  }

  /** The whole layout of any nodes with distinct ids, for any order of the groups. */
  method LayOut(nodes: seq<Node>, order: seq<string>) returns (layout: Layout)
    requires DistinctIds(nodes) && ListsGroups(nodes, order)
    ensures forall g, h :: g in layout.boxes && h in layout.boxes && g != h ==> Apart(layout.boxes[g], layout.boxes[h])
    ensures forall g :: g in layout.boxes ==> Fits(layout.boxes[g], layout.svgWidth, layout.svgHeight)
    ensures forall k :: 0 <= k < |nodes| ==> Placed(nodes[k], layout)
    ensures forall k, m :: 0 <= k < m < |nodes| ==> FarApart(nodes[k], nodes[m], layout)
    ensures exists placed :: Drawn(order, placed, layout)
    ensures forall k :: 0 <= k < |nodes| ==> (if nodes[k].group == "" then "Other" else nodes[k].group) in layout.boxes
  {
    var groups := GroupNodes(nodes);
    GroupsHaveOnePlaceEach(nodes, groups);
    OrderIsGroups(nodes, groups, order);
    ghost var placed;
    layout, placed := PackGroups(groups, order);
    AllPlaced(nodes, groups, layout);
    AllFarApart(nodes, groups, layout);
  }

  lemma OrderIsGroups(nodes: seq<Node>, groups: Groups, order: seq<string>)
    requires Grouped(nodes, groups) && ListsGroups(nodes, order)
    ensures forall g :: g in order <==> g in groups
  {
    forall g ensures g in order <==> g in groups {
      if Members(nodes, g) != [] {
        MembersExact(nodes, g, Members(nodes, g)[0]);
      }
      if k :| 0 <= k < |nodes| && GroupOf(nodes[k]) == g {
        MembersExact(nodes, g, nodes[k].id);
      }
    }
  }

  lemma AllPlaced(nodes: seq<Node>, groups: Groups, layout: Layout)
    requires Grouped(nodes, groups)
    requires layout.boxes.Keys == groups.Keys && GoodBoxes(groups, layout.boxes)
    requires GoodCentres(groups, layout.boxes, layout.centres)
    ensures forall k :: 0 <= k < |nodes| ==> Placed(nodes[k], layout)
  {
    forall k | 0 <= k < |nodes| ensures Placed(nodes[k], layout) {
      var i := PlaceOf(nodes, groups, k);
      CentreInBox(layout.boxes[GroupOf(nodes[k])], |groups[GroupOf(nodes[k])]|, i);
    }
  }

  lemma AllFarApart(nodes: seq<Node>, groups: Groups, layout: Layout)
    requires Grouped(nodes, groups) && DistinctIds(nodes)
    requires layout.boxes.Keys == groups.Keys && GoodBoxes(groups, layout.boxes)
    requires GoodCentres(groups, layout.boxes, layout.centres)
    ensures forall k, m :: 0 <= k < m < |nodes| ==> FarApart(nodes[k], nodes[m], layout)
  {
    forall k, m | 0 <= k < m < |nodes| ensures FarApart(nodes[k], nodes[m], layout) {
      TwoFarApart(nodes, groups, layout, k, m);
    }
  }

  lemma TwoFarApart(nodes: seq<Node>, groups: Groups, layout: Layout, k: nat, m: nat)
    requires Grouped(nodes, groups) && DistinctIds(nodes) && k < m < |nodes|
    requires layout.boxes.Keys == groups.Keys && GoodBoxes(groups, layout.boxes)
    requires GoodCentres(groups, layout.boxes, layout.centres)
    ensures FarApart(nodes[k], nodes[m], layout)
  {
    var i := PlaceOf(nodes, groups, k);
    var j := PlaceOf(nodes, groups, m);
    CentresAreApart(groups, layout.boxes, layout.centres, GroupOf(nodes[k]), i, GroupOf(nodes[m]), j);
  }

  /** The node's centre lies inside the box of its own group. */
  predicate Placed(n: Node, layout: Layout) {
    && n.id in layout.centres && GroupOf(n) in layout.boxes
    && Holds(layout.boxes[GroupOf(n)], layout.centres[n.id])
  }

  predicate FarApart(a: Node, b: Node, layout: Layout) {
    && a.id in layout.centres && b.id in layout.centres
    && PointsApart(layout.centres[a.id], layout.centres[b.id])
  }

  lemma PlaceOf(nodes: seq<Node>, groups: Groups, k: nat) returns (i: nat)
    requires k < |nodes|
    requires Grouped(nodes, groups)
    ensures GroupOf(nodes[k]) in groups && i < |groups[GroupOf(nodes[k])]|
    ensures groups[GroupOf(nodes[k])][i] == nodes[k].id
  {
    var g := GroupOf(nodes[k]);
    MembersExact(nodes, g, nodes[k].id);
    i :| i < |Members(nodes, g)| && Members(nodes, g)[i] == nodes[k].id;
  }
}
