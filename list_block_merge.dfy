/**
 * `_polygon_to_bbox` and `merge_consecutive_list_blocks`
 * (src/converter/pipeline/simple_pdf_pipeline.py): the layout blocks of each
 * page are sorted by reading position, and every run of two or more
 * consecutive "ListItem" blocks is replaced by one block covering them all.
 * Coordinates are compared only with min and max, so they are integers here.
 */
module ListBlockMerge {
  import Strings

  datatype Point = Point(x: int, y: int)

  /** `(x1, y1, x2, y2)`. */
  datatype Box = Box(x1: int, y1: int, x2: int, y2: int)

  /** A layout box: its `label` (here `kind`, as `label` is a Dafny keyword), its reading-order position and its outline. */
  datatype Block = Block(kind: string, position: int, polygon: seq<Point>)

  const ListItem: string := "ListItem"

  // ---------------------------------------------------------------------------
  // Boxes
  // ---------------------------------------------------------------------------

  /** `min(xs)` of a non-empty list. */
  function MinOf(xs: seq<int>): int
    requires |xs| > 0
  {
    if |xs| == 1 then xs[0]
    else
      var rest := MinOf(xs[1..]);
      if xs[0] <= rest then xs[0] else rest
  }

  /** `max(xs)` of a non-empty list. */
  function MaxOf(xs: seq<int>): int
    requires |xs| > 0
  {
    if |xs| == 1 then xs[0]
    else
      var rest := MaxOf(xs[1..]);
      if xs[0] >= rest then xs[0] else rest
  }

  /** The minimum is one of the values and no value is below it. */
  lemma {:induction false} MinOfSpec(xs: seq<int>)
    requires |xs| > 0
    ensures MinOf(xs) in xs && forall k :: 0 <= k < |xs| ==> MinOf(xs) <= xs[k]
  {
    if |xs| > 1 {
      MinOfSpec(xs[1..]);
      forall k | 1 <= k < |xs| ensures MinOf(xs[1..]) <= xs[k] {
        assert xs[1..][k - 1] == xs[k];
      }
    }
  }

  /** The maximum is one of the values and no value is above it. */
  lemma {:induction false} MaxOfSpec(xs: seq<int>)
    requires |xs| > 0
    ensures MaxOf(xs) in xs && forall k :: 0 <= k < |xs| ==> xs[k] <= MaxOf(xs)
  {
    if |xs| > 1 {
      MaxOfSpec(xs[1..]);
      forall k | 1 <= k < |xs| ensures xs[k] <= MaxOf(xs[1..]) {
        assert xs[1..][k - 1] == xs[k];
      }
    }
  }

  function Xs(polygon: seq<Point>): seq<int> {
    seq(|polygon|, k requires 0 <= k < |polygon| => polygon[k].x)
  }

  function Ys(polygon: seq<Point>): seq<int> {
    seq(|polygon|, k requires 0 <= k < |polygon| => polygon[k].y)
  }

  /** `_polygon_to_bbox`: the smallest and largest coordinates; `min` of no points is an error. */
  function PolygonToBbox(polygon: seq<Point>): Box
    requires |polygon| > 0
  {
    Box(MinOf(Xs(polygon)), MinOf(Ys(polygon)), MaxOf(Xs(polygon)), MaxOf(Ys(polygon)))
  }

  predicate Ordered(b: Box) {
    b.x1 <= b.x2 && b.y1 <= b.y2
  }

  predicate Inside(p: Point, b: Box) {
    b.x1 <= p.x <= b.x2 && b.y1 <= p.y <= b.y2
  }

  predicate Within(inner: Box, outer: Box) {
    outer.x1 <= inner.x1 && outer.y1 <= inner.y1 && inner.x2 <= outer.x2 && inner.y2 <= outer.y2
  }

  /**
   * The box of a polygon is ordered, holds every point of the polygon, and is
   * the smallest such box: each of its edges touches a point.
   */
  lemma PolygonToBboxSpec(polygon: seq<Point>)
    requires |polygon| > 0
    ensures var b := PolygonToBbox(polygon);
      && Ordered(b)
      && (forall k :: 0 <= k < |polygon| ==> Inside(polygon[k], b))
      && (exists k :: 0 <= k < |polygon| && polygon[k].x == b.x1)
      && (exists k :: 0 <= k < |polygon| && polygon[k].y == b.y1)
      && (exists k :: 0 <= k < |polygon| && polygon[k].x == b.x2)
      && (exists k :: 0 <= k < |polygon| && polygon[k].y == b.y2)
  {
    var b := PolygonToBbox(polygon);
    var xs, ys := Xs(polygon), Ys(polygon);
    MinOfSpec(xs);
    MinOfSpec(ys);
    MaxOfSpec(xs);
    MaxOfSpec(ys);
    var i1 :| 0 <= i1 < |xs| && xs[i1] == b.x1;
    var j1 :| 0 <= j1 < |ys| && ys[j1] == b.y1;
    var i2 :| 0 <= i2 < |xs| && xs[i2] == b.x2;
    var j2 :| 0 <= j2 < |ys| && ys[j2] == b.y2;
    assert polygon[i1].x == b.x1 && polygon[j1].y == b.y1 && polygon[i2].x == b.x2 && polygon[j2].y == b.y2;
    assert xs[0] == polygon[0].x && ys[0] == polygon[0].y;
    forall k | 0 <= k < |polygon| ensures Inside(polygon[k], b) {
      assert Xs(polygon)[k] == polygon[k].x && Ys(polygon)[k] == polygon[k].y;
    }
  }

  /** The outline of a box, corner by corner: `merged_polygon`. */
  function Corners(b: Box): seq<Point> {
    [Point(b.x1, b.y1), Point(b.x2, b.y1), Point(b.x2, b.y2), Point(b.x1, b.y2)]
  }

  /** The box of an ordered box's outline is that box. */
  lemma CornersRoundTrip(b: Box)
    requires Ordered(b)
    ensures PolygonToBbox(Corners(b)) == b
  {
    var c := Corners(b);
    assert Xs(c) == [b.x1, b.x2, b.x2, b.x1];
    assert Ys(c) == [b.y1, b.y1, b.y2, b.y2];
    MinMaxOfTwo([b.x1, b.x2, b.x2, b.x1], b.x1, b.x2);
    MinMaxOfTwo([b.y1, b.y1, b.y2, b.y2], b.y1, b.y2);
  }

  lemma MinMaxOfTwo(xs: seq<int>, lo: int, hi: int)
    requires lo <= hi && lo in xs && hi in xs
    requires forall k :: 0 <= k < |xs| ==> xs[k] == lo || xs[k] == hi
    ensures MinOf(xs) == lo && MaxOf(xs) == hi
  {
    MinOfSpec(xs);
    MaxOfSpec(xs);
  }

  /** The box of a block. */
  function BoxOf(b: Block): Box
    requires |b.polygon| > 0
  {
    PolygonToBbox(b.polygon)
  }

  /** Every block has an outline to take the box of. */
  predicate Outlined(run: seq<Block>) {
    forall k :: 0 <= k < |run| ==> |run[k].polygon| > 0
  }

  /** The boxes of blocks. */
  function Boxes(run: seq<Block>): seq<Box>
    requires Outlined(run)
  {
    seq(|run|, k requires 0 <= k < |run| => BoxOf(run[k]))
  }

  /** `merged_bbox`: componentwise min of the lower corners and max of the upper ones. */
  function UnionBox(boxes: seq<Box>): Box
    requires |boxes| > 0
  {
    Box(MinOf(seq(|boxes|, k requires 0 <= k < |boxes| => boxes[k].x1)),
        MinOf(seq(|boxes|, k requires 0 <= k < |boxes| => boxes[k].y1)),
        MaxOf(seq(|boxes|, k requires 0 <= k < |boxes| => boxes[k].x2)),
        MaxOf(seq(|boxes|, k requires 0 <= k < |boxes| => boxes[k].y2)))
  }

  /**
   * The union holds every box, and is ordered when they are; it is the
   * smallest such box, since each of its sides is a side of one of the boxes.
   */
  lemma UnionBoxSpec(boxes: seq<Box>)
    requires |boxes| > 0
    ensures forall k :: 0 <= k < |boxes| ==> Within(boxes[k], UnionBox(boxes))
    ensures (forall k :: 0 <= k < |boxes| ==> Ordered(boxes[k])) ==> Ordered(UnionBox(boxes))
    ensures Tight(boxes, UnionBox(boxes))
  {
    var u := UnionBox(boxes);
    var x1s := seq(|boxes|, k requires 0 <= k < |boxes| => boxes[k].x1);
    var y1s := seq(|boxes|, k requires 0 <= k < |boxes| => boxes[k].y1);
    var x2s := seq(|boxes|, k requires 0 <= k < |boxes| => boxes[k].x2);
    var y2s := seq(|boxes|, k requires 0 <= k < |boxes| => boxes[k].y2);
    MinOfSpec(x1s);
    MinOfSpec(y1s);
    MaxOfSpec(x2s);
    MaxOfSpec(y2s);
    forall k | 0 <= k < |boxes| ensures Within(boxes[k], u) {
      assert x1s[k] == boxes[k].x1 && y1s[k] == boxes[k].y1;
      assert x2s[k] == boxes[k].x2 && y2s[k] == boxes[k].y2;
    }
    if forall k :: 0 <= k < |boxes| ==> Ordered(boxes[k]) {
      assert Within(boxes[0], u) && Ordered(boxes[0]);
    }
    var a :| 0 <= a < |x1s| && x1s[a] == u.x1;
    var b :| 0 <= b < |y1s| && y1s[b] == u.y1;
    var c :| 0 <= c < |x2s| && x2s[c] == u.x2;
    var d :| 0 <= d < |y2s| && y2s[d] == u.y2;
    assert boxes[a].x1 == u.x1 && boxes[b].y1 == u.y1 && boxes[c].x2 == u.x2 && boxes[d].y2 == u.y2;
  }

  /** Each side of `u` is the same side of one of `boxes`. */
  predicate Tight(boxes: seq<Box>, u: Box) {
    && (exists k :: 0 <= k < |boxes| && boxes[k].x1 == u.x1)
    && (exists k :: 0 <= k < |boxes| && boxes[k].y1 == u.y1)
    && (exists k :: 0 <= k < |boxes| && boxes[k].x2 == u.x2)
    && (exists k :: 0 <= k < |boxes| && boxes[k].y2 == u.y2)
  }

  // ---------------------------------------------------------------------------
  // Sorting by position
  // ---------------------------------------------------------------------------

  predicate SortedByPosition(bs: seq<Block>) {
    forall i :: 0 < i < |bs| ==> bs[i - 1].position <= bs[i].position
  }

  /** Puts `b` after every block whose position is not greater than its own. */
  function Insert(s: seq<Block>, b: Block): seq<Block>
    decreases |s|
  {
    if s == [] || s[|s| - 1].position <= b.position then s + [b]
    else Insert(s[..|s| - 1], b) + [s[|s| - 1]]
  }

  /** `sorted(blocks, key=lambda x: x.position)`: a stable sort, here by insertion. */
  function SortByPosition(bs: seq<Block>): seq<Block> {
    if bs == [] then []
    else Insert(SortByPosition(bs[..|bs| - 1]), bs[|bs| - 1])
  }

  /** Inserting adds the one block and keeps all the others. */
  lemma {:induction false} InsertPermutes(s: seq<Block>, b: Block)
    ensures multiset(Insert(s, b)) == multiset(s) + multiset{b}
    decreases |s|
  {
    if s != [] && s[|s| - 1].position > b.position {
      var init, last := s[..|s| - 1], s[|s| - 1];
      InsertPermutes(init, b);
      assert s == init + [last];
    }
  }

  /** The sort is a permutation: every block is kept, none is added. */
  lemma {:induction false} SortPermutes(bs: seq<Block>)
    ensures multiset(SortByPosition(bs)) == multiset(bs)
  {
    if bs != [] {
      var init, last := bs[..|bs| - 1], bs[|bs| - 1];
      SortPermutes(init);
      InsertPermutes(SortByPosition(init), last);
      assert bs == init + [last];
    }
  }

  /** The blocks at position `p`, in order. */
  function AtPosition(bs: seq<Block>, p: int): seq<Block> {
    if bs == [] then []
    else AtPosition(bs[..|bs| - 1], p) + (if bs[|bs| - 1].position == p then [bs[|bs| - 1]] else [])
  }

  lemma {:induction false} InsertSorted(s: seq<Block>, b: Block)
    requires SortedByPosition(s)
    ensures SortedByPosition(Insert(s, b))
    ensures Insert(s, b) != [] && Insert(s, b)[|Insert(s, b)| - 1] == (if s == [] || s[|s| - 1].position <= b.position then b else s[|s| - 1])
    decreases |s|
  {
    if s != [] && s[|s| - 1].position > b.position {
      var init := s[..|s| - 1];
      InsertSorted(init, b);
    }
  }

  lemma {:induction false} InsertAtPosition(s: seq<Block>, b: Block, p: int)
    ensures AtPosition(Insert(s, b), p) == AtPosition(s, p) + (if b.position == p then [b] else [])
    decreases |s|, 1
  {
    if s == [] || s[|s| - 1].position <= b.position {
      assert Insert(s, b) == s + [b];
      AtPositionSnoc(s, b, p);
    } else {
      InsertBeforeLast(s, b, p);
    }
  }

  /** Inserting before the last block: the last block stays last, behind the others at its position. */
  lemma {:induction false} InsertBeforeLast(s: seq<Block>, b: Block, p: int)
    requires s != [] && s[|s| - 1].position > b.position
    ensures AtPosition(Insert(s, b), p) == AtPosition(s, p) + (if b.position == p then [b] else [])
    decreases |s|, 0
  {
    var init, last := s[..|s| - 1], s[|s| - 1];
    InsertUnfold(s, b);
    InsertAtPosition(init, b, p);
    AtPositionSnoc(Insert(init, b), last, p);
    AtPositionSnoc(init, last, p);
    LastSplit(s);
    SwapEmpty(AtPosition(init, p), if b.position == p then [b] else [], if last.position == p then [last] else []);
  }

  lemma InsertUnfold(s: seq<Block>, b: Block)
    requires s != [] && s[|s| - 1].position > b.position
    ensures Insert(s, b) == Insert(s[..|s| - 1], b) + [s[|s| - 1]]
  {
  }

  lemma LastSplit<T>(s: seq<T>)
    requires s != []
    ensures s == s[..|s| - 1] + [s[|s| - 1]]
  {
  }

  lemma SwapEmpty<T>(x: seq<T>, u: seq<T>, v: seq<T>)
    requires u == [] || v == []
    ensures x + u + v == x + v + u
  {
  }

  lemma AtPositionSnoc(s: seq<Block>, x: Block, p: int)
    ensures AtPosition(s + [x], p) == AtPosition(s, p) + (if x.position == p then [x] else [])
  {
    assert (s + [x])[..|s|] == s;
  }

  /** The sort is ordered by position and stable: the blocks at each position keep their order. */
  lemma {:induction false} SortSpec(bs: seq<Block>)
    ensures SortedByPosition(SortByPosition(bs))
    ensures forall p :: AtPosition(SortByPosition(bs), p) == AtPosition(bs, p)
  {
    if bs != [] {
      var init, last := bs[..|bs| - 1], bs[|bs| - 1];
      SortSpec(init);
      InsertSorted(SortByPosition(init), last);
      forall p ensures AtPosition(SortByPosition(bs), p) == AtPosition(bs, p) {
        InsertAtPosition(SortByPosition(init), last, p);
      }
    }
  }

  /** Sorting what is already sorted changes nothing. */
  lemma {:induction false} SortSorted(bs: seq<Block>)
    requires SortedByPosition(bs)
    ensures SortByPosition(bs) == bs
  {
    if bs != [] {
      var init, last := bs[..|bs| - 1], bs[|bs| - 1];
      forall i | 0 < i < |init| ensures init[i - 1].position <= init[i].position {
        assert init[i - 1] == bs[i - 1] && init[i] == bs[i];
      }
      SortSorted(init);
      assert SortByPosition(bs) == Insert(init, last);
      if init != [] {
        assert init[|init| - 1] == bs[|bs| - 2];
      }
      assert Insert(init, last) == init + [last];
      assert init + [last] == bs;
    }
  }

  // ---------------------------------------------------------------------------
  // Merging runs of list items
  // ---------------------------------------------------------------------------

  predicate IsListItem(b: Block) {
    b.kind == ListItem
  }

  /** Every list item has an outline to take the box of. */
  predicate Boxed(bs: seq<Block>) {
    forall k :: 0 <= k < |bs| ==> IsListItem(bs[k]) ==> |bs[k].polygon| > 0
  }

  /** What is left of an outlined page is outlined. */
  lemma BoxedSuffix(bs: seq<Block>, n: nat)
    requires Boxed(bs) && n <= |bs|
    ensures Boxed(bs[n..])
  {
    forall k | 0 <= k < |bs[n..]| && IsListItem(bs[n..][k]) ensures |bs[n..][k].polygon| > 0 {
      assert bs[n..][k] == bs[n + k];
    }
  }

  /** The number of list items at the front of `bs`. */
  function RunLength(bs: seq<Block>): (n: nat)
    ensures n <= |bs|
  {
    if bs == [] || !IsListItem(bs[0]) then 0 else 1 + RunLength(bs[1..])
  }

  /** The list items at the front of a page whose list items are outlined are outlined. */
  lemma RunOutlined(bs: seq<Block>)
    requires Boxed(bs)
    ensures Outlined(bs[..RunLength(bs)])
  {
    RunLengthSpec(bs);
    var run := bs[..RunLength(bs)];
    forall k | 0 <= k < |run| ensures |run[k].polygon| > 0 {
      assert run[k] == bs[k];
    }
  }

  /** The run is made of list items and ends at the first block that is not one. */
  lemma {:induction false} RunLengthSpec(bs: seq<Block>)
    ensures forall k :: 0 <= k < RunLength(bs) ==> IsListItem(bs[k])
    ensures RunLength(bs) < |bs| ==> !IsListItem(bs[RunLength(bs)])
  {
    if bs != [] && IsListItem(bs[0]) {
      RunLengthSpec(bs[1..]);
    }
  }

  /** `merged_block`: the first block's label and position, the union of the run's boxes as outline. */
  function MergedBlock(run: seq<Block>): Block
    requires |run| > 0 && Outlined(run)
  {
    Block(run[0].kind, run[0].position, Corners(UnionBox(Boxes(run))))
  }

  /** The page loop as a function: runs of two or more list items merged, every other block kept. */
  function MergeRuns(bs: seq<Block>): seq<Block>
    requires Boxed(bs)
    decreases |bs|
  {
    if bs == [] then []
    else if IsListItem(bs[0]) then
      var n := RunLength(bs);
      RunOutlined(bs);
      (if n > 1 then [MergedBlock(bs[..n])] else [bs[0]]) + MergeRuns(bs[n..])
    else [bs[0]] + MergeRuns(bs[1..])
  }

  lemma SortBoxed(bs: seq<Block>)
    requires Boxed(bs)
    ensures Boxed(SortByPosition(bs))
  {
    var r := SortByPosition(bs);
    SortPermutes(bs);
    forall k | 0 <= k < |r| && IsListItem(r[k]) ensures |r[k].polygon| > 0 {
      assert r[k] in multiset(r);
    }
  }

  /** One page of `merge_consecutive_list_blocks`: sort, then merge the runs. */
  function MergePageSpec(bs: seq<Block>): seq<Block>
    requires Boxed(bs)
  {
    SortBoxed(bs);
    MergeRuns(SortByPosition(bs))
  }

  /** The first block of the result stands for the first block of the input: same label, same position. */
  lemma MergeRunsHead(bs: seq<Block>)
    requires Boxed(bs) && bs != []
    ensures MergeRuns(bs) != []
    ensures MergeRuns(bs)[0].kind == bs[0].kind && MergeRuns(bs)[0].position == bs[0].position
  {
  }

  /** No two adjacent blocks are both list items. */
  predicate NoAdjacentItems(bs: seq<Block>) {
    forall i :: 0 < i < |bs| ==> !(IsListItem(bs[i - 1]) && IsListItem(bs[i]))
  }

  /** After merging, no two adjacent blocks are both list items. */
  lemma {:induction false} MergeRunsNoAdjacent(bs: seq<Block>)
    requires Boxed(bs)
    ensures NoAdjacentItems(MergeRuns(bs))
    decreases |bs|
  {
    if bs != [] {
      var n := if IsListItem(bs[0]) then RunLength(bs) else 1;
      BoxedSuffix(bs, n);
      var rest := MergeRuns(bs[n..]);
      MergeRunsNoAdjacent(bs[n..]);
      if IsListItem(bs[0]) {
        RunLengthSpec(bs);
        RunOutlined(bs);
        var head := if n > 1 then MergedBlock(bs[..n]) else bs[0];
        assert MergeRuns(bs) == [head] + rest;
        if bs[n..] != [] {
          MergeRunsHead(bs[n..]);
          assert !IsListItem(rest[0]);
        }
      } else {
        assert MergeRuns(bs) == [bs[0]] + rest;
      }
    }
  }

  /** The number of adjacent pairs of list items: what merging removes. */
  function Joins(bs: seq<Block>): nat {
    if |bs| < 2 then 0
    else (if IsListItem(bs[0]) && IsListItem(bs[1]) then 1 else 0) + Joins(bs[1..])
  }

  lemma {:induction false} JoinsRun(bs: seq<Block>, n: nat)
    requires 0 < n == RunLength(bs)
    ensures Joins(bs) == n - 1 + Joins(bs[n..])
  {
    if n > 1 {
      JoinsRun(bs[1..], n - 1);
      assert bs[1..][n - 1..] == bs[n..];
    }
  }

  /** A run of `n` list items becomes one block: the count drops by `n - 1` for each run. */
  lemma {:induction false} MergeRunsCount(bs: seq<Block>)
    requires Boxed(bs)
    ensures |MergeRuns(bs)| + Joins(bs) == |bs|
    decreases |bs|
  {
    if bs != [] {
      if IsListItem(bs[0]) {
        var n := RunLength(bs);
        JoinsRun(bs, n);
        MergeRunsCount(bs[n..]);
      } else {
        MergeRunsCount(bs[1..]);
      }
    }
  }

  /** The blocks that are not list items, in order. */
  function Others(bs: seq<Block>): seq<Block> {
    if bs == [] then [] else (if IsListItem(bs[0]) then [] else [bs[0]]) + Others(bs[1..])
  }

  lemma {:induction false} OthersOfRun(bs: seq<Block>, n: nat)
    requires n <= RunLength(bs)
    ensures Others(bs) == Others(bs[n..])
  {
    if n > 0 {
      OthersOfRun(bs[1..], n - 1);
      assert bs[1..][n - 1..] == bs[n..];
    }
  }

  /** Every block that is not a list item is kept unchanged, and they keep their order. */
  lemma {:induction false} MergeRunsKeepsOthers(bs: seq<Block>)
    requires Boxed(bs)
    ensures Others(MergeRuns(bs)) == Others(bs)
    decreases |bs|
  {
    if bs != [] {
      if IsListItem(bs[0]) {
        var n := RunLength(bs);
        RunOutlined(bs);
        var head := if n > 1 then [MergedBlock(bs[..n])] else [bs[0]];
        MergeRunsKeepsOthers(bs[n..]);
        OthersOfRun(bs, n);
        assert Others(head + MergeRuns(bs[n..])) == Others(MergeRuns(bs[n..])) by {
          assert (head + MergeRuns(bs[n..]))[1..] == MergeRuns(bs[n..]);
        }
      } else {
        MergeRunsKeepsOthers(bs[1..]);
        assert ([bs[0]] + MergeRuns(bs[1..]))[1..] == MergeRuns(bs[1..]);
      }
    }
  }

  /**
   * A merged block is a list item at the run's first position whose box is
   * the smallest box holding every member's box.
   */
  lemma MergedBlockCovers(run: seq<Block>)
    requires |run| > 0 && Outlined(run)
    ensures var m := MergedBlock(run);
      && m.kind == run[0].kind && m.position == run[0].position
      && |m.polygon| > 0
      && (forall k :: 0 <= k < |run| ==> Within(BoxOf(run[k]), BoxOf(m)))
      && Tight(Boxes(run), BoxOf(m))
  {
    var boxes := Boxes(run);
    var u := UnionBox(boxes);
    BoxesOrdered(run);
    UnionBoxSpec(boxes);
    CornersRoundTrip(u);
    assert BoxOf(MergedBlock(run)) == u;
    forall k | 0 <= k < |run| ensures Within(BoxOf(run[k]), u) {
      assert BoxOf(run[k]) == boxes[k];
    }
  }

  lemma BoxesOrdered(run: seq<Block>)
    requires Outlined(run)
    ensures forall k :: 0 <= k < |run| ==> Ordered(Boxes(run)[k])
  {
    forall k | 0 <= k < |run| ensures Ordered(Boxes(run)[k]) {
      PolygonToBboxSpec(run[k].polygon);
    }
  }

  /** Merging keeps a page in position order. */
  lemma {:induction false} MergeRunsSorted(bs: seq<Block>)
    requires Boxed(bs) && SortedByPosition(bs)
    ensures SortedByPosition(MergeRuns(bs))
    decreases |bs|
  {
    if bs != [] {
      var n := if IsListItem(bs[0]) then RunLength(bs) else 1;
      MergeRunsSorted(bs[n..]);
      if bs[n..] != [] {
        MergeRunsHead(bs[n..]);
        assert bs[0].position <= bs[n].position by {
          SortedMonotone(bs, 0, n);
        }
      }
    }
  }

  lemma {:induction false} SortedMonotone(bs: seq<Block>, i: nat, j: nat)
    requires SortedByPosition(bs) && i <= j < |bs|
    ensures bs[i].position <= bs[j].position
    decreases j - i
  {
    if i < j {
      SortedMonotone(bs, i, j - 1);
    }
  }

  /** A page with no two adjacent list items is left as it is. */
  lemma {:induction false} MergeRunsNothingToMerge(bs: seq<Block>)
    requires Boxed(bs)
    requires NoAdjacentItems(bs)
    ensures MergeRuns(bs) == bs
  {
    if bs != [] {
      if IsListItem(bs[0]) {
        assert RunLength(bs) == 1 by {
          if |bs| > 1 {
            assert !IsListItem(bs[1]);
          }
        }
      }
      MergeRunsNothingToMerge(bs[1..]);
    }
  }

  lemma {:induction false} MergeRunsBoxed(bs: seq<Block>)
    requires Boxed(bs)
    ensures Boxed(MergeRuns(bs))
    decreases |bs|
  {
    if bs != [] {
      var n := if IsListItem(bs[0]) then RunLength(bs) else 1;
      MergeRunsBoxed(bs[n..]);
      if IsListItem(bs[0]) && n > 1 {
        RunOutlined(bs);
        MergedBlockCovers(bs[..n]);
      }
    }
  }

  /** Merging a page a second time changes nothing. */
  lemma MergePageIdempotent(bs: seq<Block>)
    requires Boxed(bs)
    ensures Boxed(MergePageSpec(bs))
    ensures MergePageSpec(MergePageSpec(bs)) == MergePageSpec(bs)
  {
    var sorted := SortByPosition(bs);
    SortBoxed(bs);
    SortSpec(bs);
    var m := MergeRuns(sorted);
    MergeRunsBoxed(sorted);
    MergeRunsSorted(sorted);
    SortSorted(m);
    MergeRunsNoAdjacent(sorted);
    MergeRunsNothingToMerge(m);
  }

  // ---------------------------------------------------------------------------
  // The loops
  // ---------------------------------------------------------------------------

  /** One iteration of the outer loop of `merge_consecutive_list_blocks`, for one page. */
  method MergePage(blocks: seq<Block>) returns (merged: seq<Block>)
    requires Boxed(blocks)
    ensures merged == MergePageSpec(blocks)
  {
    var sorted := SortByPosition(blocks);
    SortBoxed(blocks);
    merged := MergeSorted(sorted);
  }

  /** The loop of `merge_consecutive_list_blocks` over one page's sorted blocks. */
  method MergeSorted(sorted: seq<Block>) returns (merged: seq<Block>)
    requires Boxed(sorted)
    ensures merged == MergeRuns(sorted)
  {
    merged := [];
    var i := 0;
    while i < |sorted|
      invariant 0 <= i <= |sorted| && Boxed(sorted[i..])
      invariant merged + MergeRuns(sorted[i..]) == MergeRuns(sorted)
      decreases |sorted| - i
    {
      var block, j := MergeNext(sorted, i);
      Strings.Assoc(merged, [block], MergeRuns(sorted[j..]));
      merged := merged + [block];
      i := j;
    }
  }

  /**
   * One iteration of the page loop from index `i`: the block it appends and
   * where the next iteration starts.
   */
  method MergeNext(sorted: seq<Block>, i: nat) returns (block: Block, j: nat)
    requires i < |sorted| && Boxed(sorted[i..])
    ensures i < j <= |sorted| && Boxed(sorted[j..])
    ensures MergeRuns(sorted[i..]) == [block] + MergeRuns(sorted[j..])
  {
    var current := sorted[i];
    if current.kind == ListItem {
      var consecutive;
      consecutive, j := CollectRun(sorted, i);
      MergeStep(sorted, i, j);
      if |consecutive| > 1 {
        var allBoxes := RunBoxes(consecutive);
        var box := UnionBox(allBoxes);
        block := Block(consecutive[0].kind, consecutive[0].position, Corners(box));
      } else {
        block := current;
      }
    } else {
      MergeRunsAtOther(sorted, i);
      block := current;
      j := i + 1;
    }
  }

  /** The inner loop: the list items from `i` on, up to the first block that is not one. */
  method CollectRun(sorted: seq<Block>, i: nat) returns (consecutive: seq<Block>, j: nat)
    requires i < |sorted| && IsListItem(sorted[i])
    ensures i < j <= |sorted| && consecutive == sorted[i..j]
    ensures forall k :: i <= k < j ==> IsListItem(sorted[k])
    ensures j == |sorted| || !IsListItem(sorted[j])
  {
    consecutive := [sorted[i]];
    j := i + 1;
    while j < |sorted| && sorted[j].kind == ListItem
      invariant i < j <= |sorted|
      invariant consecutive == sorted[i..j]
      invariant forall k :: i <= k < j ==> IsListItem(sorted[k])
      decreases |sorted| - j
    {
      SliceExtend(sorted, i, j);
      consecutive := consecutive + [sorted[j]];
      j := j + 1;
    }
  }

  /** `[_polygon_to_bbox(b.polygon) for b in consecutive]`. */
  method RunBoxes(run: seq<Block>) returns (boxes: seq<Box>)
    requires Outlined(run)
    ensures boxes == Boxes(run)
  {
    boxes := [];
    for k := 0 to |run|
      invariant |boxes| == k
      invariant forall m :: 0 <= m < k ==> boxes[m] == BoxOf(run[m])
    {
      boxes := boxes + [PolygonToBbox(run[k].polygon)];
    }
  }

  /** One step of the page loop over a run of list items from `i` to `j`. */
  lemma MergeStep(bs: seq<Block>, i: nat, j: nat)
    requires i < j <= |bs| && Boxed(bs[i..])
    requires forall k :: i <= k < j ==> IsListItem(bs[k])
    requires j == |bs| || !IsListItem(bs[j])
    ensures Outlined(bs[i..j]) && Boxed(bs[j..])
    ensures MergeRuns(bs[i..])
         == (if j - i > 1 then [MergedBlock(bs[i..j])] else [bs[i]]) + MergeRuns(bs[j..])
  {
    var rest := bs[i..];
    RunLengthAt(bs, i, j);
    MergeRunsAtRun(rest, j - i);
    SuffixSlices(bs, i, j);
  }

  lemma SliceExtend<T>(s: seq<T>, i: nat, j: nat)
    requires i <= j < |s|
    ensures s[i..j + 1] == s[i..j] + [s[j]]
  {
  }

  lemma SuffixSlices<T>(s: seq<T>, i: nat, j: nat)
    requires i <= j <= |s|
    ensures s[i..][..j - i] == s[i..j] && s[i..][j - i..] == s[j..]
  {
  }

  /** The merge of a page that starts with a run of `n` list items. */
  lemma MergeRunsAtRun(bs: seq<Block>, n: nat)
    requires Boxed(bs) && 0 < n <= |bs| && RunLength(bs) == n
    ensures Outlined(bs[..n]) && Boxed(bs[n..])
    ensures MergeRuns(bs) == (if n > 1 then [MergedBlock(bs[..n])] else [bs[0]]) + MergeRuns(bs[n..])
  {
    RunOutlined(bs);
    BoxedSuffix(bs, n);
  }

  /** The merge of a suffix that starts with a block that is not a list item. */
  lemma MergeRunsAtOther(bs: seq<Block>, i: nat)
    requires i < |bs| && Boxed(bs[i..]) && !IsListItem(bs[i])
    ensures Boxed(bs[i + 1..])
    ensures MergeRuns(bs[i..]) == [bs[i]] + MergeRuns(bs[i + 1..])
  {
    assert bs[i..][1..] == bs[i + 1..];
    BoxedSuffix(bs[i..], 1);
  }

  /** The inner loop stops at the end of the run. */
  lemma RunLengthAt(bs: seq<Block>, i: nat, j: nat)
    requires i < j <= |bs|
    requires forall k :: i <= k < j ==> IsListItem(bs[k])
    requires j == |bs| || !IsListItem(bs[j])
    ensures RunLength(bs[i..]) == j - i
    decreases j - i
  {
    if i + 1 < j {
      RunLengthAt(bs, i + 1, j);
      assert bs[i..][1..] == bs[i + 1..];
    }
  }

  /** The detection result of one page, whose block list is overwritten in place. */
  class LayoutResult {
    var bboxes: seq<Block>

    constructor (bboxes: seq<Block>)
      ensures this.bboxes == bboxes
    {
      this.bboxes := bboxes;
    }
  }

  /**
   * `merge_consecutive_list_blocks`: merge the blocks of each page paired with
   * an image, in place, and return those pages. A page listed twice is merged
   * twice, which leaves it as the first merge did.
   */
  method MergeConsecutiveListBlocks<Image>(layoutResults: seq<LayoutResult>, images: seq<Image>)
    returns (mergedResults: seq<LayoutResult>)
    requires forall r :: r in layoutResults ==> Boxed(r.bboxes)
    modifies layoutResults
    ensures mergedResults == layoutResults[..Paired(|layoutResults|, |images|)]
    ensures forall r :: r in layoutResults ==>
      r.bboxes == if r in mergedResults then MergePageSpec(old(r.bboxes)) else old(r.bboxes)
  {
    ghost var before := map r | r in layoutResults :: r.bboxes;
    var n := Paired(|layoutResults|, |images|);
    mergedResults := [];
    for i := 0 to n
      invariant mergedResults == layoutResults[..i]
      invariant forall r :: r in layoutResults ==>
        r.bboxes == if r in mergedResults then MergePageSpec(before[r]) else before[r]
    {
      var page := layoutResults[i];
      PageTarget(before, page, page.bboxes);
      MergeInPlace(page);
      PrefixExtend(layoutResults, i);
      mergedResults := mergedResults + [page];
    }
  }

  /** How many (page, image) pairs `zip` forms: the length of the shorter list. */
  function Paired(pages: nat, images: nat): (n: nat)
    ensures n <= pages && n <= images && (n == pages || n == images)
  {
    if pages <= images then pages else images
  }

  lemma PrefixExtend<T>(s: seq<T>, i: nat)
    requires i < |s|
    ensures s[..i + 1] == s[..i] + [s[i]]
  {
  }

  /** `layout_result.bboxes = merged_blocks`: one page's blocks replaced by their merge. */
  method MergeInPlace(page: LayoutResult)
    requires Boxed(page.bboxes)
    modifies page
    ensures page.bboxes == MergePageSpec(old(page.bboxes))
  {
    var blocks := MergePage(page.bboxes);
    page.bboxes := blocks;
  }

  /** A page's blocks, merged once or not yet, merge to the page's final blocks. */
  lemma PageTarget(before: map<LayoutResult, seq<Block>>, page: LayoutResult, current: seq<Block>)
    requires page in before && Boxed(before[page])
    requires current == before[page] || current == MergePageSpec(before[page])
    ensures Boxed(current) && MergePageSpec(current) == MergePageSpec(before[page])
  {
    MergePageIdempotent(before[page]);
  }
}
