/**
 The breadth-first flood fill of the mockup script: the mask it returns is the connected component of the
 centre pixel, for any image and either matching rule.
 */
module FloodFill {
  import opened Arithmetic
  import opened Primitives

  datatype Pixel = Pixel(red: byte, green: byte, blue: byte, alpha: byte)

  datatype Point = Point(y: int, x: int)

  /** By likeness to the centre's colour when a tolerance is given, by transparency otherwise. */
  datatype Rule = ByColour(tolerance: int) | ByAlpha(alphaMax: int)

  /** A raster with at least one pixel, row by row. */
  datatype RawImage = Image(height: nat, width: nat, rows: seq<seq<Pixel>>) {
    predicate Rectangular() {
      height > 0 && width > 0 && |rows| == height && forall y :: 0 <= y < height ==> |rows[y]| == width
    }
  }
  type Image = i: RawImage | i.Rectangular() witness Image(1, 1, [[Pixel(0, 0, 0, 0)]])

  predicate Inside(image: Image, p: Point) {
    0 <= p.y < image.height && 0 <= p.x < image.width
  }

  function At(image: Image, p: Point): Pixel
    requires Inside(image, p)
  {
    image.rows[p.y][p.x]
  }

  function Centre(image: Image): (c: Point)
    ensures Inside(image, c)
  {
    Point(image.height / 2, image.width / 2)
  }

  predicate Matches(image: Image, rule: Rule, p: Point)
    requires Inside(image, p)
  {
    var c, target := At(image, p), At(image, Centre(image));
    match rule
    case ByColour(tolerance) =>
      && c.alpha > 200
      && Abs(c.red - target.red) <= tolerance
      && Abs(c.green - target.green) <= tolerance
      && Abs(c.blue - target.blue) <= tolerance
    case ByAlpha(alphaMax) => c.alpha < alphaMax
  }

  /**
   Likeness is an opaque enough pixel no colour of which is further than the tolerance from the centre's; without a
   tolerance a pixel matches by being transparent enough, and the centre's colour does not matter.
   */
  lemma MatchesIff(image: Image, rule: Rule, p: Point)
    requires Inside(image, p)
    ensures var c, target := At(image, p), At(image, Point(image.height / 2, image.width / 2));
      Matches(image, rule, p) <==>
        match rule
        case ByAlpha(alphaMax) => c.alpha < alphaMax
        case ByColour(tolerance) =>
          c.alpha >= 201 && forall d :: d in Differences(c, target) ==> -tolerance <= d <= tolerance
  {
    var c, target := At(image, p), At(image, Centre(image));
    assert c.red - target.red in Differences(c, target) && c.green - target.green in Differences(c, target)
        && c.blue - target.blue in Differences(c, target);
  }

  function Differences(a: Pixel, b: Pixel): set<int> {
    {a.red - b.red, a.green - b.green, a.blue - b.blue}
  }

  // ---- What the mask should be ----

  predicate Adjacent(p: Point, q: Point) {
    Abs(p.y - q.y) + Abs(p.x - q.x) == 1
  }

  /** A walk from the centre through matching pixels; the centre itself need not match. */
  predicate Walk(image: Image, rule: Rule, path: seq<Point>) {
    && path != [] && path[0] == Centre(image)
    && (forall i :: 0 < i < |path| ==>
          Inside(image, path[i]) && Matches(image, rule, path[i]) && Adjacent(path[i - 1], path[i]))
  }

  ghost predicate Reachable(image: Image, rule: Rule, p: Point) {
    exists path :: Walk(image, rule, path) && path[|path| - 1] == p
  }

  lemma ReachesNeighbour(image: Image, rule: Rule, p: Point, q: Point)
    requires Reachable(image, rule, p) && Adjacent(p, q) && Inside(image, q) && Matches(image, rule, q)
    ensures Reachable(image, rule, q)
  {
    hide Matches, Adjacent;
    var path :| Walk(image, rule, path) && path[|path| - 1] == p;
    var longer := path + [q];
    assert Walk(image, rule, longer) && longer[|longer| - 1] == q;
  }

  /** A set that holds the centre and is closed under matching neighbours holds everything reachable. */
  lemma {:induction false} ClosedHoldsWalk(image: Image, rule: Rule, closed: set<Point>, path: seq<Point>)
    requires Centre(image) in closed
    requires forall p, q :: p in closed && Adjacent(p, q) && Inside(image, q) && Matches(image, rule, q) ==> q in closed
    requires Walk(image, rule, path)
    ensures path[|path| - 1] in closed
  {
    var n := |path| - 1;
    if n > 0 {
      ClosedHoldsWalk(image, rule, closed, path[..n]);
    }
  }

  // ---- The loop ----

  const OFFSETS: seq<Point> := [Point(1, 0), Point(-1, 0), Point(0, 1), Point(0, -1)]

  function Neighbour(p: Point, i: nat): Point
    requires i < 4
  {
    Point(p.y + OFFSETS[i].y, p.x + OFFSETS[i].x)
  }

  lemma NeighboursAreAdjacent(p: Point, q: Point)
    ensures Adjacent(p, q) <==> exists i :: 0 <= i < 4 && Neighbour(p, i) == q
  {
    if Adjacent(p, q) {
      assert q in {Neighbour(p, 0), Neighbour(p, 1), Neighbour(p, 2), Neighbour(p, 3)};
    }
  }

  predicate Explored(image: Image, seen: set<Point>, p: Point, upTo: nat)
    requires upTo <= 4
  {
    forall i :: 0 <= i < upTo && Inside(image, Neighbour(p, i)) ==> Neighbour(p, i) in seen
  }

  function AllPoints(image: Image): set<Point> {
    set y, x | 0 <= y < image.height && 0 <= x < image.width :: Point(y, x)
  }

  /**
   What every step keeps. `busy` holds the pixel whose neighbours are being looked at. A pixel seen is in the
   mask, waiting in the queue or no match; and around a pixel of the mask that waits no more, all are seen.
   */
  ghost predicate Consistent(image: Image, rule: Rule, masked: set<Point>, seen: set<Point>, queue: seq<Point>,
                             busy: set<Point>) {
    && masked <= seen <= AllPoints(image) && Centre(image) in seen
    && (forall p :: p in queue ==> p in seen)
    && (forall p :: p in masked || p in queue ==> Reachable(image, rule, p))
    && (forall p :: p in seen ==> p in masked || p in queue || (p != Centre(image) && !Matches(image, rule, p)))
    && (forall p :: p in masked ==> p in queue || p in busy || Explored(image, seen, p, 4))
  }

  lemma StartsConsistent(image: Image, rule: Rule)
    ensures Consistent(image, rule, {}, {Centre(image)}, [Centre(image)], {})
  {
    assert Walk(image, rule, [Centre(image)]);
  }

  lemma FrontIsBusy(image: Image, rule: Rule, masked: set<Point>, seen: set<Point>, queue: seq<Point>)
    requires queue != [] && Consistent(image, rule, masked, seen, queue, {})
    ensures Consistent(image, rule, masked + {queue[0]}, seen, queue[1..], {queue[0]})
    ensures Inside(image, queue[0]) && Explored(image, seen, queue[0], 0)
  {
    hide Matches, Reachable;
    assert queue == [queue[0]] + queue[1..];
  }

  lemma SeesMatch(image: Image, rule: Rule, masked: set<Point>, seen: set<Point>, queue: seq<Point>, p: Point, q: Point)
    requires Consistent(image, rule, masked, seen, queue, {p}) && p in masked
    requires Adjacent(p, q) && Inside(image, q) && q !in seen && Matches(image, rule, q)
    ensures Consistent(image, rule, masked + {q}, seen + {q}, queue + [q], {p})
  {
    hide Matches, Reachable, Adjacent;
    ReachesNeighbour(image, rule, p, q);
  }

  lemma SeesMismatch(image: Image, rule: Rule, masked: set<Point>, seen: set<Point>, queue: seq<Point>, p: Point,
                     q: Point)
    requires Consistent(image, rule, masked, seen, queue, {p})
    requires Inside(image, q) && q !in seen && !Matches(image, rule, q)
    ensures Consistent(image, rule, masked, seen + {q}, queue, {p})
  {
    hide Matches, Reachable;
  }

  lemma FinishesFront(image: Image, rule: Rule, masked: set<Point>, seen: set<Point>, queue: seq<Point>, p: Point)
    requires Consistent(image, rule, masked, seen, queue, {p}) && Explored(image, seen, p, 4)
    ensures Consistent(image, rule, masked, seen, queue, {})
  {
    hide Matches, Reachable;
  }

  /** With an empty queue the mask is the component. */
  lemma EmptyQueueIsComponent(image: Image, rule: Rule, masked: set<Point>, seen: set<Point>, p: Point)
    requires Consistent(image, rule, masked, seen, [], {})
    ensures p in masked <==> Reachable(image, rule, p)
  {
    forall a, b | a in masked && Adjacent(a, b) && Inside(image, b) && Matches(image, rule, b) ensures b in masked {
      NeighboursAreAdjacent(a, b);
      assert Explored(image, seen, a, 4);
    }
    if Reachable(image, rule, p) {
      var path :| Walk(image, rule, path) && path[|path| - 1] == p;
      ClosedHoldsWalk(image, rule, masked, path);
    }
  }

  lemma ExploresNext(image: Image, seen: set<Point>, more: set<Point>, p: Point, i: nat)
    requires i < 4 && Explored(image, seen, p, i) && seen <= more
    requires Inside(image, Neighbour(p, i)) ==> Neighbour(p, i) in more
    ensures Explored(image, more, p, i + 1)
  {}

  lemma NeighbourIsAdjacent(p: Point, i: nat)
    requires i < 4
    ensures Adjacent(p, Neighbour(p, i))
  {}

  /** The two-dimensional array holds exactly the points of the set. */
  ghost predicate Draws(a: array2<bool>, points: set<Point>)
    reads a
  {
    forall y, x :: 0 <= y < a.Length0 && 0 <= x < a.Length1 ==> (a[y, x] <==> Point(y, x) in points)
  }

  lemma Shrinks(image: Image, seen: set<Point>, q: Point)
    requires Inside(image, q) && q !in seen
    ensures |AllPoints(image) - (seen + {q})| < |AllPoints(image) - seen|
  {
    var all := AllPoints(image);
    assert all - seen == (all - (seen + {q})) + {q};
  }

  method FloodFillFromCenter(image: Image, rule: Rule) returns (mask: array2<bool>)
    ensures fresh(mask) && mask.Length0 == image.height && mask.Length1 == image.width
    ensures forall y, x :: 0 <= y < image.height && 0 <= x < image.width ==>
              (mask[y, x] <==> Reachable(image, rule, Point(y, x)))
  {
    hide Matches, Consistent, Reachable, Explored, AllPoints, Neighbour, Adjacent, Centre;
    var c := Centre(image);
    mask := new bool[image.height, image.width]((y, x) => false);
    var visited := new bool[image.height, image.width]((y, x) => false);
    var queue := [c];
    visited[c.y, c.x] := true;
    ghost var masked: set<Point>, seen := {}, {c};
    StartsConsistent(image, rule);
    while queue != []
      invariant Consistent(image, rule, masked, seen, queue, {})
      invariant Draws(mask, masked) && Draws(visited, seen)
      decreases |AllPoints(image) - seen|, |queue|
    {
      var p := queue[0];
      FrontIsBusy(image, rule, masked, seen, queue);
      ghost var before, waiting := seen, |queue|;
      queue := queue[1..];
      mask[p.y, p.x] := true;
      masked := masked + {p};
      var i := 0;
      while i < 4
        invariant 0 <= i <= 4
        invariant Consistent(image, rule, masked, seen, queue, {p}) && p in masked
        invariant Draws(mask, masked) && Draws(visited, seen)
        invariant i <= 4 && Explored(image, seen, p, i)
        invariant |AllPoints(image) - seen| < |AllPoints(image) - before| || (seen == before && |queue| == waiting - 1)
      {
        var q := Neighbour(p, i);
        ghost var sofar := seen;
        if 0 <= q.y < image.height && 0 <= q.x < image.width && !visited[q.y, q.x] {
          NeighbourIsAdjacent(p, i);
          Shrinks(image, seen, q);
          visited[q.y, q.x] := true;
          seen := seen + {q};
          if Matches(image, rule, q) {
            SeesMatch(image, rule, masked, sofar, queue, p, q);
            mask[q.y, q.x] := true;
            masked := masked + {q};
            queue := queue + [q];
          } else {
            SeesMismatch(image, rule, masked, sofar, queue, p, q);
          }
        }
        ExploresNext(image, sofar, seen, p, i);
        i := i + 1;
      }
      FinishesFront(image, rule, masked, seen, queue, p);
    }
    forall y, x | 0 <= y < image.height && 0 <= x < image.width
      ensures mask[y, x] <==> Reachable(image, rule, Point(y, x))
    {
      EmptyQueueIsComponent(image, rule, masked, seen, Point(y, x));
    }
  }
}
