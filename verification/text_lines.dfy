/** `group_boxes_to_lines`: greedy first-fit grouping of detected word
    boxes into text lines. Boxes are visited top to bottom by their
    vertical centre; each joins the first existing line it overlaps
    enough vertically and sits close enough to horizontally, or opens a
    new line. The polygon union computed at the end is geometry and is
    not modelled: a line keeps the polygons that would be united. */
module TextLines {
  import opened Wrappers
  import opened Values
  import StableSort

  /** `[x_min, y_min, x_max, y_max]`. */
  datatype Box = Box(xmin: int, ymin: int, xmax: int, ymax: int)

  datatype Point = Point(x: int, y: int)

  type Polygon = seq<Point>

  /** A line while grouping: the boxes in it, in joining order, and the
      bounding box grown to cover them. */
  datatype Line = Line(indices: seq<nat>, bbox: Box)

  /** One entry of the result; `shapes` are the polygons whose union is
      the line's `poly`, which is `None` exactly when `shapes` is empty. */
  datatype TextLine = TextLine(indices: seq<nat>, bbox: Box, shapes: seq<Polygon>)

  /** The defaults of `y_overlap_threshold` and `x_gap_ratio`. */
  const DefaultOverlap: real := 0.6
  const DefaultGapRatio: real := 0.5

  /** `h = ymax - ymin + 1`: the height counts pixel rows inclusively. */
  function Height(b: Box): int {
    b.ymax - b.ymin + 1
  }

  /** Twice the centre `cy = (ymin + ymax) / 2.0`; sorting on it gives the
      same order as sorting on `cy`. */
  function CenterKey(b: Box): int {
    b.ymin + b.ymax
  }

  function Keys(boxes: seq<Box>): (r: seq<int>)
    ensures |r| == |boxes|
    ensures forall i :: 0 <= i < |boxes| ==> r[i] == CenterKey(boxes[i])
  {
    seq(|boxes|, i requires 0 <= i < |boxes| => CenterKey(boxes[i]))
  }

  /** `b` lies within `outer`. */
  predicate Inside(b: Box, outer: Box) {
    outer.xmin <= b.xmin && outer.ymin <= b.ymin && b.xmax <= outer.xmax && b.ymax <= outer.ymax
  }

  /** The bounding box grown to cover one more box. */
  function Hull(a: Box, b: Box): (r: Box)
    ensures Inside(a, r) && Inside(b, r)
    ensures r.xmin == a.xmin || r.xmin == b.xmin
    ensures r.ymin == a.ymin || r.ymin == b.ymin
    ensures r.xmax == a.xmax || r.xmax == b.xmax
    ensures r.ymax == a.ymax || r.ymax == b.ymax
  {
    Box(Min(a.xmin, b.xmin), Min(a.ymin, b.ymin), Max(a.xmax, b.xmax), Max(a.ymax, b.ymax))
  }

  // ------------------------------------------------------------------
  // the joining test
  // ------------------------------------------------------------------

  /** `inter_h`: rows shared by the line and the box, not counting the
      end row (unlike `Height`). */
  function VerticalOverlap(line: Box, b: Box): (r: int)
    ensures r >= 0
    ensures Height(b) > 0 ==> r <= Height(b) - 1
    ensures Height(b) > 0 && line.ymin <= b.ymin && b.ymax <= line.ymax ==> r == Height(b) - 1
  {
    Max(0, Min(line.ymax, b.ymax) - Max(line.ymin, b.ymin))
  }

  /** Horizontal distance between the box and the line, 0 when they overlap. */
  function Gap(line: Box, b: Box): (r: int)
    ensures r >= 0
    ensures r == 0 <==> b.xmin <= line.xmax && line.xmin <= b.xmax
  {
    Max(0, Max(b.xmin - line.xmax, line.xmin - b.xmax))
  }

  /** `max(1, (box width + line width) / 2.0)`. */
  function AvgWidth(line: Box, b: Box): (r: real)
    ensures r >= 1.0
    ensures r * 2.0 >= (b.xmax - b.xmin + line.xmax - line.xmin) as real
  {
    var w := (b.xmax - b.xmin + line.xmax - line.xmin) as real / 2.0;
    if 1.0 >= w then 1.0 else w
  }

  /** The box may join the line: positive height, enough vertical overlap
      relative to the box's height, and a small enough horizontal gap. */
  predicate Fits(line: Box, b: Box, overlap: real, gapRatio: real) {
    Height(b) > 0 &&
    VerticalOverlap(line, b) as real / Height(b) as real >= overlap &&
    Gap(line, b) as real <= AvgWidth(line, b) * gapRatio
  }

  /** With the default threshold a box at most two rows tall never joins
      a line: its overlap is at most `h - 1` rows out of `h`, below 0.6
      of `h`, even inside a line that covers it. */
  lemma ThinBoxNeverFits(line: Box, b: Box, gapRatio: real)
    requires b.ymax - b.ymin <= 1
    ensures !Fits(line, b, DefaultOverlap, gapRatio)
  {
    if Height(b) > 0 {
      var h := Height(b) as real;
      assert VerticalOverlap(line, b) <= Height(b) - 1;
      assert VerticalOverlap(line, b) as real <= h - 1.0;
      assert (h - 1.0) / h < DefaultOverlap by {
        assert (h - 1.0) < DefaultOverlap * h;
      }
    }
  }

  // ------------------------------------------------------------------
  // first-fit placement
  // ------------------------------------------------------------------

  /** The first line, from `from` on, that the box may join. */
  function FirstFit(lines: seq<Line>, b: Box, overlap: real, gapRatio: real, from: nat): (r: Option<nat>)
    requires from <= |lines|
    ensures r.Some? ==> from <= r.value < |lines| && Fits(lines[r.value].bbox, b, overlap, gapRatio)
    ensures r.Some? ==> forall j :: from <= j < r.value ==> !Fits(lines[j].bbox, b, overlap, gapRatio)
    ensures r.None? ==> forall j :: from <= j < |lines| ==> !Fits(lines[j].bbox, b, overlap, gapRatio)
    decreases |lines| - from
  {
    if from == |lines| then None
    else if Fits(lines[from].bbox, b, overlap, gapRatio) then Some(from)
    else FirstFit(lines, b, overlap, gapRatio, from + 1)
  }

  /** Line `j` after box `i` joined it. */
  function Joined(line: Line, boxes: seq<Box>, i: nat): Line
    requires i < |boxes|
  {
    Line(line.indices + [i], Hull(line.bbox, boxes[i]))
  }

  /** Box `i` joins the first line it fits, or opens a new line after
      the existing ones. */
  function Place(lines: seq<Line>, boxes: seq<Box>, i: nat, overlap: real, gapRatio: real): (r: seq<Line>)
    requires i < |boxes|
    ensures |r| == |lines| || |r| == |lines| + 1
  {
    match FirstFit(lines, boxes[i], overlap, gapRatio, 0)
    case Some(j) => lines[j := Joined(lines[j], boxes, i)]
    case None => lines + [Line([i], boxes[i])]
  }

  /** First fit: the box opens a new line exactly when it fits none of
      the existing lines; otherwise it joins the first line it fits and no
      other line changes. */
  lemma PlaceFirstFit(lines: seq<Line>, boxes: seq<Box>, i: nat, overlap: real, gapRatio: real)
    requires i < |boxes|
    ensures var r := Place(lines, boxes, i, overlap, gapRatio);
      |r| == |lines| + 1 <==> forall j :: 0 <= j < |lines| ==> !Fits(lines[j].bbox, boxes[i], overlap, gapRatio)
    ensures var r := Place(lines, boxes, i, overlap, gapRatio);
      |r| == |lines| + 1 ==> r == lines + [Line([i], boxes[i])]
    ensures var r := Place(lines, boxes, i, overlap, gapRatio);
      |r| == |lines| ==> exists j :: 0 <= j < |lines| && JoinsFirst(lines, boxes, i, overlap, gapRatio, j, r)
  {
    match FirstFit(lines, boxes[i], overlap, gapRatio, 0)
    case Some(j) =>
      assert JoinsFirst(lines, boxes, i, overlap, gapRatio, j, Place(lines, boxes, i, overlap, gapRatio));
    case None =>
  }

  /** `r` is `lines` with box `i` added to line `j`, the first line it fits. */
  predicate JoinsFirst(lines: seq<Line>, boxes: seq<Box>, i: nat, overlap: real, gapRatio: real, j: nat, r: seq<Line>)
    requires i < |boxes| && j < |lines|
  {
    Fits(lines[j].bbox, boxes[i], overlap, gapRatio) &&
    (forall k :: 0 <= k < j ==> !Fits(lines[k].bbox, boxes[i], overlap, gapRatio)) &&
    r == lines[j := Joined(lines[j], boxes, i)]
  }

  predicate AllIn(boxes: seq<Box>, xs: seq<nat>) {
    forall a :: 0 <= a < |xs| ==> xs[a] < |boxes|
  }

  /** The lines after placing the boxes `xs`, in that order. */
  function Grouped(boxes: seq<Box>, xs: seq<nat>, overlap: real, gapRatio: real): (r: seq<Line>)
    requires AllIn(boxes, xs)
    ensures |r| <= |xs|
  {
    if |xs| == 0 then []
    else Place(Grouped(boxes, xs[..|xs| - 1], overlap, gapRatio), boxes, xs[|xs| - 1], overlap, gapRatio)
  }

  // ------------------------------------------------------------------
  // bounding boxes
  // ------------------------------------------------------------------

  /** The smallest box covering the boxes `ids`. */
  function HullOf(boxes: seq<Box>, ids: seq<nat>): (r: Box)
    requires |ids| > 0 && AllIn(boxes, ids)
    ensures forall k :: 0 <= k < |ids| ==> Inside(boxes[ids[k]], r)
    ensures Tight(boxes, ids, r)
  {
    if |ids| == 1 then boxes[ids[0]]
    else
      var front := ids[..|ids| - 1];
      var prev := HullOf(boxes, front);
      var r := Hull(prev, boxes[ids[|ids| - 1]]);
      assert forall k :: 0 <= k < |front| ==> ids[k] == front[k];
      TightStep(boxes, ids, prev, r);
      r
  }

  /** Each side of `r` is the side of one of the boxes `ids`. */
  predicate Tight(boxes: seq<Box>, ids: seq<nat>, r: Box)
    requires AllIn(boxes, ids)
  {
    (exists k :: 0 <= k < |ids| && r.xmin == boxes[ids[k]].xmin) &&
    (exists k :: 0 <= k < |ids| && r.ymin == boxes[ids[k]].ymin) &&
    (exists k :: 0 <= k < |ids| && r.xmax == boxes[ids[k]].xmax) &&
    (exists k :: 0 <= k < |ids| && r.ymax == boxes[ids[k]].ymax)
  }

  lemma TightStep(boxes: seq<Box>, ids: seq<nat>, prev: Box, r: Box)
    requires |ids| > 1 && AllIn(boxes, ids)
    requires Tight(boxes, ids[..|ids| - 1], prev)
    requires r == Hull(prev, boxes[ids[|ids| - 1]])
    ensures Tight(boxes, ids, r)
  {
    var front := ids[..|ids| - 1];
    var last := |ids| - 1;
    assert forall k :: 0 <= k < |front| ==> ids[k] == front[k];
    if r.xmin != boxes[ids[last]].xmin {
      var k :| 0 <= k < |front| && prev.xmin == boxes[front[k]].xmin;
      assert r.xmin == boxes[ids[k]].xmin;
    }
    if r.ymin != boxes[ids[last]].ymin {
      var k :| 0 <= k < |front| && prev.ymin == boxes[front[k]].ymin;
      assert r.ymin == boxes[ids[k]].ymin;
    }
    if r.xmax != boxes[ids[last]].xmax {
      var k :| 0 <= k < |front| && prev.xmax == boxes[front[k]].xmax;
      assert r.xmax == boxes[ids[k]].xmax;
    }
    if r.ymax != boxes[ids[last]].ymax {
      var k :| 0 <= k < |front| && prev.ymax == boxes[front[k]].ymax;
      assert r.ymax == boxes[ids[k]].ymax;
    }
  }

  /** Every line is non-empty and its bounding box is exactly the hull of
      its boxes. */
  predicate WellFormed(boxes: seq<Box>, lines: seq<Line>) {
    forall j :: 0 <= j < |lines| ==>
      |lines[j].indices| > 0 && AllIn(boxes, lines[j].indices) &&
      lines[j].bbox == HullOf(boxes, lines[j].indices)
  }

  lemma HullOfJoined(boxes: seq<Box>, line: Line, i: nat)
    requires i < |boxes| && |line.indices| > 0 && AllIn(boxes, line.indices)
    requires line.bbox == HullOf(boxes, line.indices)
    ensures AllIn(boxes, Joined(line, boxes, i).indices)
    ensures Joined(line, boxes, i).bbox == HullOf(boxes, Joined(line, boxes, i).indices)
  {
    var ids := line.indices + [i];
    assert ids[..|ids| - 1] == line.indices;
  }

  lemma PlaceWellFormed(lines: seq<Line>, boxes: seq<Box>, i: nat, overlap: real, gapRatio: real)
    requires i < |boxes| && WellFormed(boxes, lines)
    ensures WellFormed(boxes, Place(lines, boxes, i, overlap, gapRatio))
  {
    match FirstFit(lines, boxes[i], overlap, gapRatio, 0)
    case Some(j) =>
      HullOfJoined(boxes, lines[j], i);
    case None =>
  }

  /** Grouping keeps every line non-empty and its bounding box the hull
      of its boxes. */
  lemma {:induction false} GroupedWellFormed(boxes: seq<Box>, xs: seq<nat>, overlap: real, gapRatio: real)
    requires AllIn(boxes, xs)
    ensures WellFormed(boxes, Grouped(boxes, xs, overlap, gapRatio))
  {
    if |xs| > 0 {
      GroupedWellFormed(boxes, xs[..|xs| - 1], overlap, gapRatio);
      PlaceWellFormed(Grouped(boxes, xs[..|xs| - 1], overlap, gapRatio), boxes, xs[|xs| - 1], overlap, gapRatio);
    }
  }

  // ------------------------------------------------------------------
  // every box in exactly one line
  // ------------------------------------------------------------------

  /** All boxes of all lines, with multiplicity. */
  function Members(lines: seq<Line>): multiset<nat> {
    if |lines| == 0 then multiset{}
    else Members(lines[..|lines| - 1]) + multiset(lines[|lines| - 1].indices)
  }

  lemma {:induction false} MembersUpdate(lines: seq<Line>, j: nat, l: Line)
    requires j < |lines|
    ensures Members(lines[j := l]) + multiset(lines[j].indices) == Members(lines) + multiset(l.indices)
  {
    var n := |lines|;
    var r := lines[j := l];
    assert Members(r) == Members(r[..n - 1]) + multiset(r[n - 1].indices);
    assert Members(lines) == Members(lines[..n - 1]) + multiset(lines[n - 1].indices);
    if j == n - 1 {
      assert r[..n - 1] == lines[..n - 1];
    } else {
      assert r[..n - 1] == lines[..n - 1][j := l];
      assert r[n - 1] == lines[n - 1];
      assert lines[..n - 1][j] == lines[j];
      MembersUpdate(lines[..n - 1], j, l);
      forall x ensures (Members(r) + multiset(lines[j].indices))[x] == (Members(lines) + multiset(l.indices))[x] {
        assert (Members(r[..n - 1]) + multiset(lines[j].indices))[x] == (Members(lines[..n - 1]) + multiset(l.indices))[x];
      }
    }
  }

  lemma {:induction false} MemberOfLine(lines: seq<Line>, j: nat, x: nat)
    requires j < |lines| && x in lines[j].indices
    ensures x in Members(lines)
  {
    if j < |lines| - 1 {
      assert lines[..|lines| - 1][j] == lines[j];
      MemberOfLine(lines[..|lines| - 1], j, x);
    }
  }

  lemma {:induction false} MembersOutnumberLines(lines: seq<Line>)
    requires forall j :: 0 <= j < |lines| ==> |lines[j].indices| > 0
    ensures |Members(lines)| >= |lines|
  {
    if |lines| > 0 {
      var front := lines[..|lines| - 1];
      assert forall j :: 0 <= j < |front| ==> front[j] == lines[j];
      MembersOutnumberLines(front);
    }
  }

  lemma JoinMembers(lines: seq<Line>, boxes: seq<Box>, i: nat, j: nat)
    requires i < |boxes| && j < |lines|
    ensures Members(lines[j := Joined(lines[j], boxes, i)]) == Members(lines) + multiset{i}
  {
    var old_ := lines[j].indices;
    MembersUpdate(lines, j, Joined(lines[j], boxes, i));
    assert multiset(old_ + [i]) == multiset(old_) + multiset{i};
    var r := lines[j := Joined(lines[j], boxes, i)];
    assert forall x :: Members(r)[x] == (Members(lines) + multiset{i})[x] by {
      forall x ensures Members(r)[x] == (Members(lines) + multiset{i})[x] {
        assert (Members(r) + multiset(old_))[x] == (Members(lines) + multiset(old_) + multiset{i})[x];
      }
    }
  }

  lemma OpenMembers(lines: seq<Line>, boxes: seq<Box>, i: nat)
    requires i < |boxes|
    ensures Members(lines + [Line([i], boxes[i])]) == Members(lines) + multiset{i}
  {
    var r := lines + [Line([i], boxes[i])];
    assert r[..|r| - 1] == lines;
  }

  lemma PlaceMembers(lines: seq<Line>, boxes: seq<Box>, i: nat, overlap: real, gapRatio: real)
    requires i < |boxes|
    ensures Members(Place(lines, boxes, i, overlap, gapRatio)) == Members(lines) + multiset{i}
  {
    match FirstFit(lines, boxes[i], overlap, gapRatio, 0)
    case Some(j) =>
      assert Place(lines, boxes, i, overlap, gapRatio) == lines[j := Joined(lines[j], boxes, i)];
      JoinMembers(lines, boxes, i, j);
    case None =>
      assert Place(lines, boxes, i, overlap, gapRatio) == lines + [Line([i], boxes[i])];
      OpenMembers(lines, boxes, i);
  }

  /** Grouping places each visited box exactly once. */
  lemma {:induction false} GroupedPartition(boxes: seq<Box>, xs: seq<nat>, overlap: real, gapRatio: real)
    requires AllIn(boxes, xs)
    ensures Members(Grouped(boxes, xs, overlap, gapRatio)) == multiset(xs)
  {
    if |xs| > 0 {
      var front := xs[..|xs| - 1];
      var i := xs[|xs| - 1];
      var lines := Grouped(boxes, front, overlap, gapRatio);
      assert multiset(xs) == multiset(front) + multiset{i} by {
        assert xs == front + [i];
      }
      GroupedPartition(boxes, front, overlap, gapRatio);
      PlaceMembers(lines, boxes, i, overlap, gapRatio);
      assert Grouped(boxes, xs, overlap, gapRatio) == Place(lines, boxes, i, overlap, gapRatio);
    }
  }

  // ------------------------------------------------------------------
  // top-to-bottom order
  // ------------------------------------------------------------------

  /** Within each line boxes are in visiting order, and lines are in the
      order they were opened, which is the order of their first boxes. */
  predicate InOrder(keys: seq<int>, lines: seq<Line>) {
    (forall j :: 0 <= j < |lines| ==> |lines[j].indices| > 0 && StableSort.Ordered(keys, lines[j].indices)) &&
    (forall j, l :: 0 <= j < l < |lines| ==> StableSort.Precedes(keys, lines[j].indices[0], lines[l].indices[0]))
  }

  /** Every box already placed comes before `i` in the visiting order. */
  predicate AllBefore(keys: seq<int>, lines: seq<Line>, i: nat)
    requires i < |keys|
  {
    forall j, a :: 0 <= j < |lines| && 0 <= a < |lines[j].indices| ==>
      lines[j].indices[a] < |keys| && StableSort.Precedes(keys, lines[j].indices[a], i)
  }

  lemma JoinInOrder(lines: seq<Line>, boxes: seq<Box>, i: nat, j: nat)
    requires i < |boxes| && j < |lines|
    requires InOrder(Keys(boxes), lines) && AllBefore(Keys(boxes), lines, i)
    ensures InOrder(Keys(boxes), lines[j := Joined(lines[j], boxes, i)])
  {
    var keys := Keys(boxes);
    var l := lines[j].indices + [i];
    assert StableSort.Ordered(keys, l) by {
      forall a, b | 0 <= a < b < |l| ensures StableSort.Precedes(keys, l[a], l[b]) {
        if b == |l| - 1 {
          assert l[a] == lines[j].indices[a];
        } else {
          assert l[a] == lines[j].indices[a] && l[b] == lines[j].indices[b];
        }
      }
    }
    assert l[0] == lines[j].indices[0];
  }

  lemma OpenInOrder(lines: seq<Line>, boxes: seq<Box>, i: nat)
    requires i < |boxes|
    requires InOrder(Keys(boxes), lines) && AllBefore(Keys(boxes), lines, i)
    ensures InOrder(Keys(boxes), lines + [Line([i], boxes[i])])
  {
    var keys := Keys(boxes);
    var r := lines + [Line([i], boxes[i])];
    assert StableSort.Ordered(keys, [i]);
    forall j, l | 0 <= j < l < |r|
      ensures StableSort.Precedes(keys, r[j].indices[0], r[l].indices[0])
    {
      if l == |lines| {
        assert r[j] == lines[j];
      }
    }
  }

  lemma PlaceInOrder(lines: seq<Line>, boxes: seq<Box>, i: nat, overlap: real, gapRatio: real)
    requires i < |boxes|
    requires InOrder(Keys(boxes), lines) && AllBefore(Keys(boxes), lines, i)
    ensures InOrder(Keys(boxes), Place(lines, boxes, i, overlap, gapRatio))
  {
    match FirstFit(lines, boxes[i], overlap, gapRatio, 0)
    case Some(j) =>
      assert Place(lines, boxes, i, overlap, gapRatio) == lines[j := Joined(lines[j], boxes, i)];
      JoinInOrder(lines, boxes, i, j);
    case None =>
      assert Place(lines, boxes, i, overlap, gapRatio) == lines + [Line([i], boxes[i])];
      OpenInOrder(lines, boxes, i);
  }

  lemma {:induction false} GroupedInOrder(boxes: seq<Box>, xs: seq<nat>, overlap: real, gapRatio: real)
    requires StableSort.Ordered(Keys(boxes), xs)
    ensures InOrder(Keys(boxes), Grouped(boxes, xs, overlap, gapRatio))
  {
    if |xs| > 0 {
      var keys := Keys(boxes);
      var front := xs[..|xs| - 1];
      var i := xs[|xs| - 1];
      var lines := Grouped(boxes, front, overlap, gapRatio);
      assert StableSort.Ordered(keys, front);
      GroupedInOrder(boxes, front, overlap, gapRatio);
      GroupedPartition(boxes, front, overlap, gapRatio);
      forall j, a | 0 <= j < |lines| && 0 <= a < |lines[j].indices|
        ensures lines[j].indices[a] < |keys| && StableSort.Precedes(keys, lines[j].indices[a], i)
      {
        var x := lines[j].indices[a];
        MemberOfLine(lines, j, x);
        assert x in multiset(front);
        var c :| 0 <= c < |front| && front[c] == x;
        assert xs[c] == x;
      }
      assert Grouped(boxes, xs, overlap, gapRatio) == Place(lines, boxes, i, overlap, gapRatio);
      PlaceInOrder(lines, boxes, i, overlap, gapRatio);
    }
  }

  // ------------------------------------------------------------------
  // the whole grouping
  // ------------------------------------------------------------------

  /** The lines before polygons are attached: boxes visited in stable
      order of their vertical centre. */
  function GroupLines(boxes: seq<Box>, overlap: real, gapRatio: real): (r: seq<Line>)
    ensures |r| <= |boxes|
    ensures WellFormed(boxes, r)
  {
    var order := StableSort.Order(Keys(boxes));
    GroupedWellFormed(boxes, order, overlap, gapRatio);
    Grouped(boxes, order, overlap, gapRatio)
  }

  /** The polygons of the boxes `ids` that have at least three points. */
  function Shapes(polys: seq<Polygon>, ids: seq<nat>): (r: seq<Polygon>)
    requires forall a :: 0 <= a < |ids| ==> ids[a] < |polys|
    ensures |r| <= |ids|
    ensures forall p :: p in r ==> |p| >= 3 && p in polys
    ensures |r| == 0 <==> forall a :: 0 <= a < |ids| ==> |polys[ids[a]]| < 3
    ensures forall a :: 0 <= a < |ids| && |polys[ids[a]]| >= 3 ==> polys[ids[a]] in r
  {
    if |ids| == 0 then []
    else
      var rest := Shapes(polys, ids[1..]);
      assert forall a :: 1 <= a < |ids| ==> ids[a] == ids[1..][a - 1];
      if |polys[ids[0]]| >= 3 then [polys[ids[0]]] + rest else rest
  }

  /** The filter keeps the line's order: the shapes of two runs of boxes
      are the shapes of the first run followed by those of the second. */
  lemma {:induction false} ShapesAppend(polys: seq<Polygon>, a: seq<nat>, b: seq<nat>)
    requires forall k :: 0 <= k < |a| ==> a[k] < |polys|
    requires forall k :: 0 <= k < |b| ==> b[k] < |polys|
    ensures Shapes(polys, a + b) == Shapes(polys, a) + Shapes(polys, b)
  {
    if |a| == 0 {
      assert a + b == b;
    } else {
      TailOfJoin(a, b);
      ShapesAppend(polys, a[1..], b);
    }
  }

  lemma TailOfJoin(a: seq<nat>, b: seq<nat>)
    requires |a| > 0
    ensures (a + b)[0] == a[0] && (a + b)[1..] == a[1..] + b
  {
  }

  /** Every box of every line has a polygon. */
  predicate PolysCover(lines: seq<Line>, polys: seq<Polygon>) {
    forall j, a :: 0 <= j < |lines| && 0 <= a < |lines[j].indices| ==> lines[j].indices[a] < |polys|
  }

  /** `group_boxes_to_lines`: `polys[i]` raises for a box without a
      polygon. */
  function GroupBoxesToLines(boxes: seq<Box>, polys: seq<Polygon>, overlap: real, gapRatio: real)
    : (r: Result<seq<TextLine>, string>)
    ensures r.Success? ==> |r.value| == |GroupLines(boxes, overlap, gapRatio)|
    ensures r.Success? <==> PolysCover(GroupLines(boxes, overlap, gapRatio), polys)
    ensures r.Success? ==> forall j :: 0 <= j < |r.value| ==>
      r.value[j].indices == GroupLines(boxes, overlap, gapRatio)[j].indices &&
      r.value[j].bbox == GroupLines(boxes, overlap, gapRatio)[j].bbox &&
      r.value[j].shapes == Shapes(polys, GroupLines(boxes, overlap, gapRatio)[j].indices)
    ensures r.Failure? ==> r.error == "list index out of range"
  {
    var lines := GroupLines(boxes, overlap, gapRatio);
    if !PolysCover(lines, polys) then Failure("list index out of range")
    else Success(seq(|lines|, j requires 0 <= j < |lines| =>
      TextLine(lines[j].indices, lines[j].bbox, Shapes(polys, lines[j].indices))))
  }

  /** Each box index appears in exactly one line, and there are never
      more lines than boxes. */
  lemma LinesPartitionBoxes(boxes: seq<Box>, overlap: real, gapRatio: real)
    ensures forall i :: 0 <= i < |boxes| ==> Members(GroupLines(boxes, overlap, gapRatio))[i] == 1
    ensures forall x :: x in Members(GroupLines(boxes, overlap, gapRatio)) ==> x < |boxes|
    ensures |GroupLines(boxes, overlap, gapRatio)| <= |boxes|
  {
    var order := StableSort.Order(Keys(boxes));
    GroupedPartition(boxes, order, overlap, gapRatio);
    forall i | 0 <= i < |boxes| ensures Members(GroupLines(boxes, overlap, gapRatio))[i] == 1 {
      StableSort.OrderIsPermutation(Keys(boxes), i);
    }
    forall x | x in Members(GroupLines(boxes, overlap, gapRatio)) ensures x < |boxes| {
      assert x in multiset(order);
    }
  }

  /** Each line's bounding box is the hull of its boxes: it contains every
      one of them and each side touches one of them. */
  lemma LineBoxesInside(boxes: seq<Box>, overlap: real, gapRatio: real)
    ensures Covers(boxes, GroupLines(boxes, overlap, gapRatio))
  {
    var lines := GroupLines(boxes, overlap, gapRatio);
    GroupedWellFormed(boxes, StableSort.Order(Keys(boxes)), overlap, gapRatio);
    forall j, a | 0 <= j < |lines| && 0 <= a < |lines[j].indices|
      ensures lines[j].indices[a] < |boxes| && Inside(boxes[lines[j].indices[a]], lines[j].bbox)
    {
      WellFormedInside(boxes, lines, j, a);
    }
    forall j | 0 <= j < |lines| ensures AllIn(boxes, lines[j].indices) && Tight(boxes, lines[j].indices, lines[j].bbox) {
      WellFormedInside(boxes, lines, j, 0);
    }
  }

  /** Each line's boxes lie within its bounding box, and each side of the
      bounding box touches one of them. */
  predicate Covers(boxes: seq<Box>, lines: seq<Line>) {
    (forall j, a :: 0 <= j < |lines| && 0 <= a < |lines[j].indices| ==>
      lines[j].indices[a] < |boxes| && Inside(boxes[lines[j].indices[a]], lines[j].bbox)) &&
    (forall j :: 0 <= j < |lines| ==> AllIn(boxes, lines[j].indices) && Tight(boxes, lines[j].indices, lines[j].bbox))
  }

  lemma WellFormedInside(boxes: seq<Box>, lines: seq<Line>, j: nat, a: nat)
    requires WellFormed(boxes, lines) && j < |lines| && a < |lines[j].indices|
    ensures lines[j].indices[a] < |boxes|
    ensures Inside(boxes[lines[j].indices[a]], lines[j].bbox)
    ensures AllIn(boxes, lines[j].indices) && Tight(boxes, lines[j].indices, lines[j].bbox)
  {
    var line := lines[j];
    assert |line.indices| > 0 && AllIn(boxes, line.indices) && line.bbox == HullOf(boxes, line.indices);
  }

  /** Lines run top to bottom by the centre of their first box, and boxes
      within a line in the same order. */
  lemma LinesTopToBottom(boxes: seq<Box>, overlap: real, gapRatio: real)
    ensures InOrder(Keys(boxes), GroupLines(boxes, overlap, gapRatio))
  {
    GroupedInOrder(boxes, StableSort.Order(Keys(boxes)), overlap, gapRatio);
  }

  /** The result is an error exactly when there are fewer polygons than
      boxes. */
  lemma MissingPolygonRaises(boxes: seq<Box>, polys: seq<Polygon>, overlap: real, gapRatio: real)
    ensures GroupBoxesToLines(boxes, polys, overlap, gapRatio).Failure? <==> |polys| < |boxes|
  {
    var lines := GroupLines(boxes, overlap, gapRatio);
    LinesPartitionBoxes(boxes, overlap, gapRatio);
    if |polys| < |boxes| {
      var x := |boxes| - 1;
      assert x in Members(lines);
      var j, a := FindMember(lines, x);
      assert !PolysCover(lines, polys);
    } else {
      forall j, a | 0 <= j < |lines| && 0 <= a < |lines[j].indices| ensures lines[j].indices[a] < |polys| {
        MemberOfLine(lines, j, lines[j].indices[a]);
      }
    }
  }

  /** The line and position holding a member. */
  lemma {:induction false} FindMember(lines: seq<Line>, x: nat) returns (j: nat, a: nat)
    requires x in Members(lines)
    ensures j < |lines| && a < |lines[j].indices| && lines[j].indices[a] == x
  {
    var n := |lines|;
    if x in multiset(lines[n - 1].indices) {
      j := n - 1;
      a :| 0 <= a < |lines[j].indices| && lines[j].indices[a] == x;
    } else {
      j, a := FindMember(lines[..n - 1], x);
    }
  }

  /** A box too thin to pass the default overlap test always opens a new line. */
  lemma ThinBoxOpensLine(lines: seq<Line>, boxes: seq<Box>, i: nat, gapRatio: real)
    requires i < |boxes| && boxes[i].ymax - boxes[i].ymin <= 1
    ensures Place(lines, boxes, i, DefaultOverlap, gapRatio) == lines + [Line([i], boxes[i])]
  {
    PlaceFirstFit(lines, boxes, i, DefaultOverlap, gapRatio);
    forall j | 0 <= j < |lines| ensures !Fits(lines[j].bbox, boxes[i], DefaultOverlap, gapRatio) {
      ThinBoxNeverFits(lines[j].bbox, boxes[i], gapRatio);
    }
  }
}
