/** The search of the pixels around a place for what belongs to one picture, up to a cost. */
module PixelSearch {
  import opened Common

  datatype Point = Point(x: int, y: int)

  /** The node of a pixel. Nodes are found by their pixel, and a parent is named by its pixel. */
  datatype Node = Node(g: int, parent: Option<Point>, onOpenList: bool, onClosedList: bool)

  /** A surface, of which only size and background matter. */
  datatype Surface = Surface(width: nat, height: nat, alpha: Point -> bool)

  /** The nodes, the queue, and the pixels within the cost in the order in which they were expanded. */
  datatype State = State(nodes: map<Point, Node>, open: seq<Point>, reachable: seq<Point>)

  /**
   * What happened: when each node got its parent, which have been expanded, and which were beyond the cost when
   * they were found, so that they never were queued.
   */
  datatype History = History(stamps: map<Point, nat>, clock: nat, expanded: set<Point>, dropped: set<Point>)

  function PathCost(s: Surface, p: Point, q: Point): (c: nat) {
    if s.alpha(p) && s.alpha(q) then 2 else if s.alpha(p) != s.alpha(q) then 1 else 0
  }

  /** A step costs as much as there are background pixels at its ends. */
  lemma PathCostIs(s: Surface, p: Point, q: Point)
    ensures PathCost(s, p, q) == One(s.alpha(p)) + One(s.alpha(q)) && PathCost(s, p, q) == PathCost(s, q, p)
  {
  }

  predicate Inside(s: Surface, p: Point) {
    0 <= p.x < s.width && 0 <= p.y < s.height
  }

  predicate Adjacent(p: Point, q: Point) {
    p != q && -1 <= p.x - q.x <= 1 && -1 <= p.y - q.y <= 1
  }

  function IfInside(s: Surface, x: int, y: int): seq<Point> {
    if Inside(s, Point(x, y)) then [Point(x, y)] else []
  }

  function Straight(s: Surface, p: Point): seq<Point> {
    IfInside(s, p.x - 1, p.y) + IfInside(s, p.x + 1, p.y) + IfInside(s, p.x, p.y - 1) + IfInside(s, p.x, p.y + 1)
  }

  function Diagonal(s: Surface, p: Point): seq<Point> {
    IfInside(s, p.x - 1, p.y - 1) + IfInside(s, p.x + 1, p.y - 1) + IfInside(s, p.x - 1, p.y + 1) + IfInside(s, p.x + 1, p.y + 1)
  }

  /** The pixels around one, in the order in which they are looked at. */
  function Neighbours(s: Surface, p: Point): seq<Point> {
    Straight(s, p) + Diagonal(s, p)
  }

  /** They are just the adjacent pixels inside the surface. */
  lemma NeighboursAre(s: Surface, p: Point, q: Point)
    ensures q in Neighbours(s, p) <==> Adjacent(q, p) && Inside(s, q)
  {
    hide Inside;
  }

  lemma AllNeighbours(s: Surface, p: Point)
    ensures forall q :: q in Neighbours(s, p) <==> Adjacent(q, p) && Inside(s, q)
  {
    hide Neighbours, Adjacent, Inside;
    forall q
      ensures q in Neighbours(s, p) <==> Adjacent(q, p) && Inside(s, q)
    {
      NeighboursAre(s, p, q);
    }
  }

  // ---- What the search keeps ----

  /** The parent was there first, or is nearer; following parents cannot go round in a circle. */
  predicate Before(st: State, h: History, q: Point, p: Point)
    requires q in st.nodes && p in st.nodes && q in h.stamps && p in h.stamps
  {
    st.nodes[q].g < st.nodes[p].g || (st.nodes[q].g == st.nodes[p].g && h.stamps[q] < h.stamps[p])
  }

  predicate LinkOk(s: Surface, start: Point, st: State, h: History, p: Point)
    requires p in st.nodes && p in h.stamps
  {
    var n := st.nodes[p];
    if p == start then n.g == 0 && n.parent == None
    else
      && n.parent.Some?
      && var q := n.parent.value;
      && q in h.expanded && q in st.nodes && q in h.stamps && Adjacent(p, q)
      && n.g >= st.nodes[q].g + PathCost(s, p, q)
      && Before(st, h, q, p)
  }

  predicate NodeOk(s: Surface, start: Point, maxCost: int, st: State, h: History, p: Point)
    requires p in st.nodes
  {
    var n := st.nodes[p];
    && Inside(s, p) && n.g >= 0
    && (n.onOpenList || n.onClosedList)
    && p in h.stamps && h.stamps[p] < h.clock
    && (p in st.open || p in h.expanded || p in h.dropped)
    && LinkOk(s, start, st, h, p)
  }

  /** The queue and the list of what was reached hold each pixel once. */
  ghost predicate ListsOk(start: Point, maxCost: int, st: State, h: History) {
    && Distinct(st.open) && Distinct(st.reachable)
    && (forall p | p in st.open :: p in st.nodes && p !in h.expanded && (st.nodes[p].g <= maxCost || p == start))
    && (forall p | p in h.expanded :: p in st.nodes && (st.nodes[p].g <= maxCost || p == start))
    && (forall p | p in h.dropped :: p in st.nodes && p !in h.expanded && p !in st.open)
    && (forall p :: p in st.reachable <==> p in h.expanded && st.nodes[p].g <= maxCost)
  }

  ghost predicate NodesOk(s: Surface, start: Point, maxCost: int, st: State, h: History) {
    start in st.nodes && forall p | p in st.nodes :: NodeOk(s, start, maxCost, st, h, p)
  }

  ghost predicate Inv(s: Surface, start: Point, maxCost: int, st: State, h: History) {
    NodesOk(s, start, maxCost, st, h) && ListsOk(start, maxCost, st, h)
  }

  function Started(start: Point): State {
    State(map[start := Node(0, None, true, false)], [start], [])
  }

  /** The node at the front of the queue leaves it. */
  function Expanded(st: State, maxCost: int): State
    requires st.open != [] && st.open[0] in st.nodes
  {
    var current := st.open[0];
    var n := st.nodes[current].(onOpenList := false, onClosedList := true);
    State(st.nodes[current := n], st.open[1..], if n.g <= maxCost then st.reachable + [current] else st.reachable)
  }

  lemma ExpandNode(s: Surface, start: Point, maxCost: int, st: State, h: History, p: Point)
    requires st.open != [] && st.open[0] in st.nodes && p in st.nodes && NodeOk(s, start, maxCost, st, h, p)
    ensures NodeOk(s, start, maxCost, Expanded(st, maxCost), h.(expanded := h.expanded + {st.open[0]}), p)
  {
    hide PathCost, Inside, Adjacent;
    assert p in st.open ==> p == st.open[0] || p in st.open[1..];
  }

  lemma ExpandLists(start: Point, maxCost: int, st: State, h: History)
    requires ListsOk(start, maxCost, st, h) && st.open != [] && st.open[0] in st.nodes
    ensures ListsOk(start, maxCost, Expanded(st, maxCost), h.(expanded := h.expanded + {st.open[0]}))
  {
    var current := st.open[0];
    RestIsDistinct(st.open);
    assert current in st.open && current !in st.reachable;
    assert forall p :: p in st.open <==> p == current || p in st.open[1..];
    hide Distinct;
    AddedIsDistinct(st.reachable, current);
  }

  lemma RestIsDistinct(x: seq<Point>)
    requires Distinct(x) && x != []
    ensures Distinct(x[1..]) && x[0] !in x[1..]
  {
  }

  lemma AddedIsDistinct(x: seq<Point>, p: Point)
    requires Distinct(x) && p !in x
    ensures Distinct(x + [p])
  {
  }

  lemma ExpandInv(s: Surface, start: Point, maxCost: int, st: State, h: History)
    requires Inv(s, start, maxCost, st, h) && st.open != []
    ensures st.open[0] in st.nodes && st.open[0] !in h.expanded && st.open[0] in Grid(s)
    ensures Inv(s, start, maxCost, Expanded(st, maxCost), h.(expanded := h.expanded + {st.open[0]}))
    ensures h.expanded <= Grid(s)
  {
    assert st.open[0] in st.open;
    var t, k := Expanded(st, maxCost), h.(expanded := h.expanded + {st.open[0]});
    ExpandLists(start, maxCost, st, h);
    forall p | p in st.nodes
      ensures p in Grid(s)
    {
      assert NodeOk(s, start, maxCost, st, h, p);
    }
    hide ListsOk, NodeOk;
    forall p | p in t.nodes
      ensures NodeOk(s, start, maxCost, t, k, p)
    {
      ExpandNode(s, start, maxCost, st, h, p);
    }
  }

  ghost function Grid(s: Surface): set<Point> {
    set x, y | 0 <= x < s.width && 0 <= y < s.height :: Point(x, y)
  }

  lemma SmallerSet(a: set<Point>, b: set<Point>)
    requires a <= b
    ensures |a| <= |b|
  {
    if a != {} {
      var p :| p in a;
      SmallerSet(a - {p}, b - {p});
    }
  }

  /** The cost of a pixel by way of another. */
  function Through(s: Surface, st: State, current: Point, p: Point): int
    requires current in st.nodes
  {
    PathCost(s, p, current) + st.nodes[current].g
  }

  /** A pixel that has no node yet gets one; beyond the cost it is not queued. */
  function Discovered(st: State, maxCost: int, current: Point, p: Point, g: int): State {
    st.(nodes := st.nodes[p := Node(g, Some(current), true, g > maxCost)],
        open := if g > maxCost then st.open else st.open + [p])
  }

  function Noted(h: History, p: Point, drop: bool): History {
    h.(stamps := h.stamps[p := h.clock], clock := h.clock + 1, dropped := if drop then h.dropped + {p} else h.dropped)
  }

  /** A nearer way to a pixel. The pixels that were reached through it stay as they are. */
  function Nearer(st: State, current: Point, p: Point, g: int): State
    requires p in st.nodes
  {
    st.(nodes := st.nodes[p := st.nodes[p].(g := g, parent := Some(current))])
  }

  lemma OtherNode(s: Surface, start: Point, maxCost: int, st: State, h: History, current: Point, p: Point, q: Point)
    requires current in st.nodes && q in st.nodes && p !in st.nodes && q != p
    requires NodeOk(s, start, maxCost, st, h, q)
    ensures var g := Through(s, st, current, p);
      NodeOk(s, start, maxCost, Discovered(st, maxCost, current, p, g), Noted(h, p, g > maxCost), q)
  {
    hide PathCost, Inside, Adjacent;
  }

  lemma NewNode(s: Surface, start: Point, maxCost: int, st: State, h: History, current: Point, p: Point)
    requires current in st.nodes && p !in st.nodes && start in st.nodes && current in h.expanded
    requires NodeOk(s, start, maxCost, st, h, current) && Adjacent(p, current) && Inside(s, p)
    ensures var g := Through(s, st, current, p);
      NodeOk(s, start, maxCost, Discovered(st, maxCost, current, p, g), Noted(h, p, g > maxCost), p)
  {
    hide PathCost, Inside;
    var g := Through(s, st, current, p);
    var t, k := Discovered(st, maxCost, current, p, g), Noted(h, p, g > maxCost);
    assert p in t.open || p in k.dropped;
    assert LinkOk(s, start, t, k, p);
  }

  lemma DiscoverLists(s: Surface, start: Point, maxCost: int, st: State, h: History, current: Point, p: Point)
    requires ListsOk(start, maxCost, st, h) && current in st.nodes && p !in st.nodes
    ensures var g := Through(s, st, current, p);
      ListsOk(start, maxCost, Discovered(st, maxCost, current, p, g), Noted(h, p, g > maxCost))
  {
    hide PathCost;
    assert p !in st.open && p !in h.expanded;
  }

  lemma DiscoverInv(s: Surface, start: Point, maxCost: int, st: State, h: History, current: Point, p: Point)
    requires Inv(s, start, maxCost, st, h) && current in h.expanded && current in st.nodes && p !in st.nodes
    requires Adjacent(p, current) && Inside(s, p)
    ensures var g := Through(s, st, current, p);
      Inv(s, start, maxCost, Discovered(st, maxCost, current, p, g), Noted(h, p, g > maxCost))
  {
    hide NodeOk, ListsOk, Adjacent, Inside, Through, Noted;
    var g := Through(s, st, current, p);
    var t, k := Discovered(st, maxCost, current, p, g), Noted(h, p, g > maxCost);
    assert NodeOk(s, start, maxCost, st, h, current);
    forall q | q in t.nodes
      ensures NodeOk(s, start, maxCost, t, k, q)
    {
      if q == p {
        NewNode(s, start, maxCost, st, h, current, p);
      } else {
        OtherNode(s, start, maxCost, st, h, current, p, q);
      }
    }
    DiscoverLists(s, start, maxCost, st, h, current, p);
  }

  lemma NearerNode(s: Surface, start: Point, maxCost: int, st: State, h: History, current: Point, p: Point, q: Point)
    requires current in st.nodes && p in st.nodes && q in st.nodes && current in h.expanded && Adjacent(p, current)
    requires NodeOk(s, start, maxCost, st, h, p) && NodeOk(s, start, maxCost, st, h, q)
    requires NodeOk(s, start, maxCost, st, h, current)
    requires Through(s, st, current, p) < st.nodes[p].g
    ensures NodeOk(s, start, maxCost, Nearer(st, current, p, Through(s, st, current, p)), Noted(h, p, false), q)
  {
    hide PathCost, Inside;
    var t, k := Nearer(st, current, p, Through(s, st, current, p)), Noted(h, p, false);
    assert LinkOk(s, start, t, k, q);
  }

  lemma NearerLists(s: Surface, start: Point, maxCost: int, st: State, h: History, current: Point, p: Point)
    requires ListsOk(start, maxCost, st, h) && current in h.expanded && current in st.nodes && p in st.nodes
    requires p != start && Through(s, st, current, p) < st.nodes[p].g
    ensures ListsOk(start, maxCost, Nearer(st, current, p, Through(s, st, current, p)), Noted(h, p, false))
  {
    hide PathCost;
  }

  lemma NearerInv(s: Surface, start: Point, maxCost: int, st: State, h: History, current: Point, p: Point)
    requires Inv(s, start, maxCost, st, h) && current in h.expanded && current in st.nodes && p in st.nodes
    requires Adjacent(p, current) && Through(s, st, current, p) < st.nodes[p].g
    ensures Inv(s, start, maxCost, Nearer(st, current, p, Through(s, st, current, p)), Noted(h, p, false))
  {
    hide ListsOk, Adjacent, Inside, Noted, PathCost;
    var t, k := Nearer(st, current, p, Through(s, st, current, p)), Noted(h, p, false);
    assert NodeOk(s, start, maxCost, st, h, current) && NodeOk(s, start, maxCost, st, h, p);
    assert LinkOk(s, start, st, h, p);
    NearerLists(s, start, maxCost, st, h, current, p);
    hide NodeOk, Through;
    forall q | q in t.nodes
      ensures NodeOk(s, start, maxCost, t, k, q)
    {
      NearerNode(s, start, maxCost, st, h, current, p, q);
    }
  }

  // ---- What is dropped ----

  /** A surface without background. */
  ghost predicate AllPicture(s: Surface) {
    forall p | Inside(s, p) :: !s.alpha(p)
  }

  /** No cost is higher than the pixels expanded allow. */
  ghost predicate CostsBounded(s: Surface, maxCost: int, st: State, h: History) {
    && (forall p | p in st.nodes :: st.nodes[p].g <= 2 * |h.expanded|)
    && (forall p | p in h.expanded && p in st.nodes :: st.nodes[p].g <= 2 * (|h.expanded| - 1))
    && (h.dropped != {} ==> maxCost < 2 * (|Grid(s)| - 1))
  }

  /** On a surface without background all is for free. */
  ghost predicate FreeOnPicture(s: Surface, maxCost: int, st: State, h: History) {
    AllPicture(s) ==> (forall p | p in st.nodes :: st.nodes[p].g == 0) && (h.dropped != {} ==> maxCost < 0)
  }

  /** With no cost allowed, what is dropped is background and what is queued is not. */
  ghost predicate NothingAllowed(s: Surface, maxCost: int, st: State, h: History) {
    maxCost == 0 ==>
      && (forall p | p in h.dropped :: s.alpha(p))
      && (forall p | p in st.open || p in h.expanded :: !s.alpha(p))
  }

  ghost predicate Limits(s: Surface, maxCost: int, st: State, h: History) {
    CostsBounded(s, maxCost, st, h) && FreeOnPicture(s, maxCost, st, h) && NothingAllowed(s, maxCost, st, h)
  }

  lemma ExpandLimits(s: Surface, start: Point, maxCost: int, st: State, h: History)
    requires Limits(s, maxCost, st, h) && st.open != [] && st.open[0] in st.nodes && st.open[0] !in h.expanded
    ensures Limits(s, maxCost, Expanded(st, maxCost), h.(expanded := h.expanded + {st.open[0]}))
  {
    assert st.open[0] in st.open;
    assert forall p | p in st.open[1..] :: p in st.open;
    assert |h.expanded + {st.open[0]}| == |h.expanded| + 1;
  }

  /** A pixel without a node is one more than those that have been expanded. */
  lemma MoreThanExpanded(s: Surface, start: Point, maxCost: int, st: State, h: History, p: Point)
    requires Inv(s, start, maxCost, st, h) && p !in st.nodes && Inside(s, p)
    ensures |h.expanded| <= |Grid(s)| - 1
  {
    forall q | q in h.expanded
      ensures q in Grid(s) - {p}
    {
      assert NodeOk(s, start, maxCost, st, h, q);
    }
    SmallerSet(h.expanded, Grid(s) - {p});
  }

  lemma CostOfStep(s: Surface, p: Point, q: Point)
    ensures PathCost(s, p, q) <= 2 && (!s.alpha(p) && !s.alpha(q) ==> PathCost(s, p, q) == 0)
    ensures !s.alpha(q) ==> (PathCost(s, p, q) == 0 <==> !s.alpha(p))
  {
  }

  lemma DiscoverLimits(s: Surface, start: Point, maxCost: int, st: State, h: History, current: Point, p: Point)
    requires Inv(s, start, maxCost, st, h) && Limits(s, maxCost, st, h)
    requires current in h.expanded && current in st.nodes && p !in st.nodes && Inside(s, p)
    ensures var g := Through(s, st, current, p);
      Limits(s, maxCost, Discovered(st, maxCost, current, p, g), Noted(h, p, g > maxCost))
  {
    assert NodeOk(s, start, maxCost, st, h, current);
    MoreThanExpanded(s, start, maxCost, st, h, p);
    if maxCost == 0 {
      CurrentIsAllowed(s, start, maxCost, st, h, current);
      DiscoverAllowed(s, maxCost, st, h, current, p);
    }
    assert p !in h.expanded;
    hide Inv, Grid, NodeOk;
    DiscoverBounded(s, maxCost, st, h, current, p);
    DiscoverFree(s, maxCost, st, h, current, p);
    hide CostsBounded, FreeOnPicture, NothingAllowed, Discovered, Noted;
    assert maxCost != 0 ==> NothingAllowed(s, maxCost, Discovered(st, maxCost, current, p, Through(s, st, current, p)),
        Noted(h, p, Through(s, st, current, p) > maxCost)) by {
      NothingToAllow(s, maxCost, Discovered(st, maxCost, current, p, Through(s, st, current, p)),
                     Noted(h, p, Through(s, st, current, p) > maxCost));
    }
  }

  lemma NothingToAllow(s: Surface, maxCost: int, st: State, h: History)
    ensures maxCost != 0 ==> NothingAllowed(s, maxCost, st, h)
  {
  }

  lemma DiscoverBounded(s: Surface, maxCost: int, st: State, h: History, current: Point, p: Point)
    requires CostsBounded(s, maxCost, st, h) && |h.expanded| <= |Grid(s)| - 1 && p !in h.expanded
    requires current in h.expanded && current in st.nodes && p !in st.nodes
    ensures var g := Through(s, st, current, p);
      CostsBounded(s, maxCost, Discovered(st, maxCost, current, p, g), Noted(h, p, g > maxCost))
  {
    CostOfStep(s, p, current);
    hide PathCost, Grid;
  }

  lemma DiscoverFree(s: Surface, maxCost: int, st: State, h: History, current: Point, p: Point)
    requires FreeOnPicture(s, maxCost, st, h) && Inside(s, p) && Inside(s, current)
    requires current in h.expanded && current in st.nodes && p !in st.nodes
    ensures var g := Through(s, st, current, p);
      FreeOnPicture(s, maxCost, Discovered(st, maxCost, current, p, g), Noted(h, p, g > maxCost))
  {
    CostOfStep(s, p, current);
    hide PathCost, Inside;
  }

  lemma DiscoverAllowed(s: Surface, maxCost: int, st: State, h: History, current: Point, p: Point)
    requires NothingAllowed(s, maxCost, st, h) && current in h.expanded && current in st.nodes && maxCost == 0
    requires st.nodes[current].g == 0
    ensures var g := Through(s, st, current, p);
      NothingAllowed(s, maxCost, Discovered(st, maxCost, current, p, g), Noted(h, p, g > maxCost))
  {
    CostOfStep(s, p, current);
    hide PathCost;
    var g := Through(s, st, current, p);
    assert forall q | q in Discovered(st, maxCost, current, p, g).open :: q in st.open || (q == p && g <= maxCost);
  }

  lemma CurrentIsAllowed(s: Surface, start: Point, maxCost: int, st: State, h: History, current: Point)
    requires Inv(s, start, maxCost, st, h) && current in h.expanded && current in st.nodes && maxCost == 0
    ensures st.nodes[current].g == 0
  {
    assert NodeOk(s, start, maxCost, st, h, current);
  }

  lemma NearerLimits(s: Surface, start: Point, maxCost: int, st: State, h: History, current: Point, p: Point)
    requires Limits(s, maxCost, st, h) && current in st.nodes && p in st.nodes && st.nodes[current].g >= 0
    requires Through(s, st, current, p) < st.nodes[p].g
    ensures Limits(s, maxCost, Nearer(st, current, p, Through(s, st, current, p)), Noted(h, p, false))
  {
    hide PathCost, Inside, Grid;
  }

  // ---- The loops ----

  /** All neighbours of what was expanded have a node; of the one being expanded, those so far. */
  ghost predicate Closed(s: Surface, st: State, h: History, current: Option<Point>) {
    forall c, p | c in h.expanded && current != Some(c) && Adjacent(p, c) && Inside(s, p) :: p in st.nodes
  }

  /** What may have changed while the neighbours of a pixel are looked at. */
  ghost predicate Grown(st: State, h: History, t: State, k: History) {
    && k.expanded == h.expanded && t.reachable == st.reachable && st.nodes.Keys <= t.nodes.Keys
    && h.dropped <= k.dropped
  }

  /** The nodes and the queue after a neighbour has been looked at. */
  function Visited(s: Surface, maxCost: int, st: State, current: Point, p: Point): (t: State)
    requires current in st.nodes
    ensures st.nodes.Keys <= t.nodes.Keys && p in t.nodes
  {
    if p !in st.nodes then Discovered(st, maxCost, current, p, Through(s, st, current, p))
    else if Through(s, st, current, p) < st.nodes[p].g then Nearer(st, current, p, Through(s, st, current, p))
    else st
  }

  /** And what is remembered of it. */
  function Remembered(s: Surface, maxCost: int, st: State, h: History, current: Point, p: Point): History
    requires current in st.nodes
  {
    if p !in st.nodes then Noted(h, p, Through(s, st, current, p) > maxCost)
    else if Through(s, st, current, p) < st.nodes[p].g then Noted(h, p, false)
    else h
  }

  function VisitedAll(s: Surface, maxCost: int, st: State, current: Point, ps: seq<Point>): State
    requires current in st.nodes
    decreases |ps|
  {
    if ps == [] then st else VisitedAll(s, maxCost, Visited(s, maxCost, st, current, ps[0]), current, ps[1..])
  }

  function RememberedAll(s: Surface, maxCost: int, st: State, h: History, current: Point, ps: seq<Point>): History
    requires current in st.nodes
    decreases |ps|
  {
    if ps == [] then h
    else
      RememberedAll(s, maxCost, Visited(s, maxCost, st, current, ps[0]),
                    Remembered(s, maxCost, st, h, current, ps[0]), current, ps[1..])
  }

  /** One turn of the main loop. */
  function Stepped(s: Surface, maxCost: int, st: State): State {
    if st.open == [] || st.open[0] !in st.nodes then st
    else VisitedAll(s, maxCost, Expanded(st, maxCost), st.open[0], Neighbours(s, st.open[0]))
  }

  function After(s: Surface, start: Point, maxCost: int, n: nat): State {
    if n == 0 then Started(start) else Stepped(s, maxCost, After(s, start, maxCost, n - 1))
  }

  function HistoryAfter(s: Surface, start: Point, maxCost: int, n: nat): History {
    if n == 0 then History(map[start := 0], 1, {}, {})
    else SteppedHistory(s, maxCost, After(s, start, maxCost, n - 1), HistoryAfter(s, start, maxCost, n - 1))
  }

  function SteppedHistory(s: Surface, maxCost: int, st: State, h: History): History {
    if st.open == [] || st.open[0] !in st.nodes then h
    else
      RememberedAll(s, maxCost, Expanded(st, maxCost), h.(expanded := h.expanded + {st.open[0]}), st.open[0],
                    Neighbours(s, st.open[0]))
  }

  lemma VisitKeeps(s: Surface, start: Point, maxCost: int, st: State, h: History, current: Point, p: Point)
    requires Inv(s, start, maxCost, st, h) && Limits(s, maxCost, st, h)
    requires current in h.expanded && current in st.nodes && Adjacent(p, current) && Inside(s, p)
    ensures var t, k := Visited(s, maxCost, st, current, p), Remembered(s, maxCost, st, h, current, p);
      Inv(s, start, maxCost, t, k) && Limits(s, maxCost, t, k) && Grown(st, h, t, k)
  {
    if p !in st.nodes {
      DiscoverInv(s, start, maxCost, st, h, current, p);
      DiscoverLimits(s, start, maxCost, st, h, current, p);
    } else if Through(s, st, current, p) < st.nodes[p].g {
      NearerInv(s, start, maxCost, st, h, current, p);
      assert NodeOk(s, start, maxCost, st, h, current);
      NearerLimits(s, start, maxCost, st, h, current, p);
    }
  }

  lemma {:induction false} VisitAllKeeps(s: Surface, start: Point, maxCost: int, st: State, h: History, current: Point, ps: seq<Point>)
    requires Inv(s, start, maxCost, st, h) && Limits(s, maxCost, st, h) && current in h.expanded && current in st.nodes
    requires forall p | p in ps :: Adjacent(p, current) && Inside(s, p)
    ensures var t, k := VisitedAll(s, maxCost, st, current, ps), RememberedAll(s, maxCost, st, h, current, ps);
      && Inv(s, start, maxCost, t, k) && Limits(s, maxCost, t, k) && Grown(st, h, t, k)
      && forall p | p in ps :: p in t.nodes
    decreases |ps|
  {
    hide Inv, Limits, Visited, Remembered;
    if ps != [] {
      VisitKeeps(s, start, maxCost, st, h, current, ps[0]);
      var t, k := Visited(s, maxCost, st, current, ps[0]), Remembered(s, maxCost, st, h, current, ps[0]);
      VisitAllKeeps(s, start, maxCost, t, k, current, ps[1..]);
      assert forall p | p in ps :: p == ps[0] || p in ps[1..];
    }
  }

  /** What holds between two turns of the main loop. */
  ghost predicate Whole(s: Surface, start: Point, maxCost: int, st: State, h: History) {
    Inv(s, start, maxCost, st, h) && Limits(s, maxCost, st, h) && Closed(s, st, h, None)
  }

  lemma StartInv(s: Surface, start: Point, maxCost: int)
    requires Inside(s, start) && !s.alpha(start)
    ensures Whole(s, start, maxCost, Started(start), History(map[start := 0], 1, {}, {}))
  {
    assert Inv(s, start, maxCost, Started(start), History(map[start := 0], 1, {}, {}));
  }

  lemma {:induction false} AfterIsWhole(s: Surface, start: Point, maxCost: int, n: nat)
    requires Inside(s, start) && !s.alpha(start)
    ensures Whole(s, start, maxCost, After(s, start, maxCost, n), HistoryAfter(s, start, maxCost, n))
  {
    hide Whole, Stepped, SteppedHistory;
    if n == 0 {
      StartInv(s, start, maxCost);
    } else {
      AfterIsWhole(s, start, maxCost, n - 1);
      StepIsWhole(s, start, maxCost, After(s, start, maxCost, n - 1), HistoryAfter(s, start, maxCost, n - 1));
    }
  }

  lemma StepIsWhole(s: Surface, start: Point, maxCost: int, st: State, h: History)
    requires Whole(s, start, maxCost, st, h)
    ensures Whole(s, start, maxCost, Stepped(s, maxCost, st), SteppedHistory(s, maxCost, st, h))
    ensures st.open != [] ==>
      && st.open[0] in st.nodes && st.open[0] !in h.expanded && st.open[0] in Grid(s)
      && SteppedHistory(s, maxCost, st, h).expanded == h.expanded + {st.open[0]}
  {
    hide Inv, Limits, Closed, Neighbours, VisitedAll, RememberedAll;
    if st.open != [] {
      ExpandInv(s, start, maxCost, st, h);
      ExpandLimits(s, start, maxCost, st, h);
      StillClosed(s, st, h, maxCost);
      var current, t, k := st.open[0], Expanded(st, maxCost), h.(expanded := h.expanded + {st.open[0]});
      var ps := Neighbours(s, current);
      AllNeighbours(s, current);
      VisitAllKeeps(s, start, maxCost, t, k, current, ps);
      var u, l := VisitedAll(s, maxCost, t, current, ps), RememberedAll(s, maxCost, t, k, current, ps);
      NowClosed(s, t, k, u, l, current, ps);
    }
  }

  lemma NowClosed(s: Surface, st: State, h: History, t: State, k: History, current: Point, ps: seq<Point>)
    requires Closed(s, st, h, Some(current)) && Grown(st, h, t, k) && ps == Neighbours(s, current)
    requires forall p | p in ps :: p in t.nodes
    ensures Closed(s, t, k, None)
  {
    hide Neighbours;
    AllNeighbours(s, current);
  }

  method Visit(s: Surface, ghost start: Point, maxCost: int, st: State, ghost h: History, current: Point, p: Point)
    returns (t: State, thrown: bool)
    requires Inv(s, start, maxCost, st, h) && current in st.nodes
    ensures !thrown && t == Visited(s, maxCost, st, current, p)
  {
    hide Inv, PathCost;
    var gCost := PathCost(s, p, current) + st.nodes[current].g;
    t, thrown := st, false;
    if p !in st.nodes {
      t := Discovered(st, maxCost, current, p, gCost);
    } else if st.nodes[p].onClosedList || st.nodes[p].onOpenList {
      if gCost < st.nodes[p].g {
        t := Nearer(st, current, p, gCost);
      }
    } else {
      OnSomeList(s, start, maxCost, st, h, p);
      thrown := true;
    }
  }

  lemma OnSomeList(s: Surface, start: Point, maxCost: int, st: State, h: History, p: Point)
    requires Inv(s, start, maxCost, st, h) && p in st.nodes
    ensures st.nodes[p].onOpenList || st.nodes[p].onClosedList
  {
    assert NodeOk(s, start, maxCost, st, h, p);
  }

  /** Looks at all the neighbours of a pixel. */
  method VisitAll(s: Surface, ghost start: Point, maxCost: int, st: State, ghost h: History, current: Point)
    returns (t: State, thrown: bool)
    requires Inv(s, start, maxCost, st, h) && Limits(s, maxCost, st, h) && current in h.expanded && current in st.nodes
    ensures !thrown && t == VisitedAll(s, maxCost, st, current, Neighbours(s, current))
  {
    hide Inv, Limits, Neighbours, Visited, Remembered;
    t, thrown := st, false;
    ghost var k := h;
    var around := Neighbours(s, current);
    AllNeighbours(s, current);
    assert around[0..] == around;
    for i := 0 to |around|
      invariant !thrown && Inv(s, start, maxCost, t, k) && Limits(s, maxCost, t, k)
      invariant current in k.expanded && current in t.nodes
      invariant VisitedAll(s, maxCost, t, current, around[i..]) == VisitedAll(s, maxCost, st, current, around)
    {
      assert around[i] in around;
      assert around[i..][1..] == around[i + 1..];
      VisitKeeps(s, start, maxCost, t, k, current, around[i]);
      ghost var next := Remembered(s, maxCost, t, k, current, around[i]);
      t, thrown := Visit(s, start, maxCost, t, k, current, around[i]);
      k := next;
    }
  }

  /** The pixels within the cost, in the order in which they are expanded. */
  method Search(s: Surface, start: Point, maxCost: int) returns (st: State, ghost n: nat, thrown: bool)
    requires Inside(s, start) && !s.alpha(start)
    ensures !thrown && st == After(s, start, maxCost, n) && st.open == []
    ensures Distinct(st.reachable) && forall p | p in st.reachable :: Inside(s, p)
  {
    hide Inv, Limits, Closed, VisitedAll, RememberedAll, Neighbours;
    n := 0;
    st, thrown := Started(start), false;
    while !thrown && st.open != []
      invariant !thrown && st == After(s, start, maxCost, n)
      decreases |Grid(s) - HistoryAfter(s, start, maxCost, n).expanded|
    {
      AfterIsWhole(s, start, maxCost, n);
      ghost var h := HistoryAfter(s, start, maxCost, n);
      ExpandInv(s, start, maxCost, st, h);
      ExpandLimits(s, start, maxCost, st, h);
      var current := st.open[0];
      st := Expanded(st, maxCost);
      ExpandsOne(s, start, maxCost, n);
      st, thrown := VisitAll(s, start, maxCost, st, h.(expanded := h.expanded + {current}), current);
      n := n + 1;
    }
    AfterIsWhole(s, start, maxCost, n);
    ReachedOnce(s, start, maxCost, st, HistoryAfter(s, start, maxCost, n));
  }

  /** Every turn expands a pixel that was not expanded before. */
  lemma ExpandsOne(s: Surface, start: Point, maxCost: int, n: nat)
    requires Inside(s, start) && !s.alpha(start) && After(s, start, maxCost, n).open != []
    ensures |Grid(s) - HistoryAfter(s, start, maxCost, n + 1).expanded|
         == |Grid(s) - HistoryAfter(s, start, maxCost, n).expanded| - 1
  {
    hide Whole, Stepped, SteppedHistory, Grid;
    AfterIsWhole(s, start, maxCost, n);
    var st, h := After(s, start, maxCost, n), HistoryAfter(s, start, maxCost, n);
    StepIsWhole(s, start, maxCost, st, h);
    var k := SteppedHistory(s, maxCost, st, h);
    assert Grid(s) - k.expanded == Grid(s) - h.expanded - {st.open[0]};
  }

  lemma ReachedOnce(s: Surface, start: Point, maxCost: int, st: State, h: History)
    requires Inv(s, start, maxCost, st, h)
    ensures Distinct(st.reachable) && forall p | p in st.reachable :: Inside(s, p)
  {
    forall p | p in st.reachable
      ensures Inside(s, p)
    {
      assert p in h.expanded;
      assert NodeOk(s, start, maxCost, st, h, p);
    }
  }

  /** The search comes to its end. */
  lemma {:induction false} Finishes(s: Surface, start: Point, maxCost: int, from: nat) returns (n: nat)
    requires Inside(s, start) && !s.alpha(start)
    ensures After(s, start, maxCost, n).open == []
    decreases |Grid(s) - HistoryAfter(s, start, maxCost, from).expanded|
  {
    hide After, HistoryAfter;
    if After(s, start, maxCost, from).open == [] {
      n := from;
    } else {
      ExpandsOne(s, start, maxCost, from);
      n := Finishes(s, start, maxCost, from + 1);
    }
  }

  lemma StillClosed(s: Surface, st: State, h: History, maxCost: int)
    requires Closed(s, st, h, None) && st.open != [] && st.open[0] in st.nodes
    ensures Closed(s, Expanded(st, maxCost), h.(expanded := h.expanded + {st.open[0]}), Some(st.open[0]))
  {
  }

  const MAX_INT := 0x7fff_ffff
  const MIN_INT := -0x8000_0000

  datatype Found = Small(x: int, y: int) | Corners(x1: int, y1: int, x2: int, y2: int)

  /** The background pixels lie within the corners, and touch each side; without any, nothing has moved the corners. */
  ghost predicate IsBox(s: Surface, reached: seq<Point>, b: Found) {
    && b.Corners?
    && (forall p | p in reached && s.alpha(p) :: b.x1 <= p.x <= b.x2 && b.y1 <= p.y <= b.y2)
    && ((exists p :: p in reached && s.alpha(p)) ==>
          && (exists p :: p in reached && s.alpha(p) && p.x == b.x1)
          && (exists p :: p in reached && s.alpha(p) && p.y == b.y1)
          && (exists p :: p in reached && s.alpha(p) && p.x == b.x2)
          && (exists p :: p in reached && s.alpha(p) && p.y == b.y2))
    && ((forall p | p in reached :: !s.alpha(p)) ==> b == Corners(MAX_INT, MAX_INT, MIN_INT, MIN_INT))
  }

  method BoundingBox(s: Surface, reached: seq<Point>) returns (b: Found)
    requires s.width <= MAX_INT && s.height <= MAX_INT && forall p | p in reached :: Inside(s, p)
    ensures IsBox(s, reached, b)
  {
    var x1, y1, x2, y2 := MAX_INT, MAX_INT, MIN_INT, MIN_INT;
    assert IsBox(s, reached[..0], Corners(x1, y1, x2, y2));
    for i := 0 to |reached|
      invariant IsBox(s, reached[..i], Corners(x1, y1, x2, y2))
    {
      var p := reached[i];
      ghost var was := Corners(x1, y1, x2, y2);
      assert p in reached;
      if s.alpha(p) {
        if p.x < x1 { x1 := p.x; }
        if p.x > x2 { x2 := p.x; }
        if p.y < y1 { y1 := p.y; }
        if p.y > y2 { y2 := p.y; }
      }
      BoxGrows(s, reached[..i], p, was, Corners(x1, y1, x2, y2));
      assert reached[..i + 1] == reached[..i] + [p];
    }
    assert reached[..|reached|] == reached;
    b := Corners(x1, y1, x2, y2);
  }

  lemma BoxGrows(s: Surface, reached: seq<Point>, p: Point, a: Found, b: Found)
    requires IsBox(s, reached, a) && b.Corners? && Inside(s, p) && s.width <= MAX_INT && s.height <= MAX_INT
    requires if s.alpha(p) then
        && b.x1 == (if p.x < a.x1 then p.x else a.x1) && b.x2 == (if p.x > a.x2 then p.x else a.x2)
        && b.y1 == (if p.y < a.y1 then p.y else a.y1) && b.y2 == (if p.y > a.y2 then p.y else a.y2)
      else b == a
    ensures IsBox(s, reached + [p], b)
  {
    var all := reached + [p];
    assert forall q :: q in all <==> q in reached || q == p;
    if s.alpha(p) {
      assert p in all;
    }
  }

  /** The picture around a place: a small square outside the surface or on the background, else what is reached. */
  method BorderRect(s: Surface, ox: int, oy: int, maxCost: int) returns (b: Found, ghost n: nat)
    requires (0 <= ox && 0 <= oy) || ox >= s.width || oy >= s.height
    requires s.width <= MAX_INT && s.height <= MAX_INT
    ensures b.Small? <==> !Inside(s, Point(ox, oy)) || s.alpha(Point(ox, oy))
    ensures b.Small? ==> b == Small(ox, oy)
    ensures b.Corners? ==>
      var st := After(s, Point(ox, oy), maxCost, n); st.open == [] && IsBox(s, st.reachable, b)
  {
    hide After, IsBox;
    var start := Point(ox, oy);
    n := 0;
    if ox >= s.width || oy >= s.height || s.alpha(start) {
      return Small(ox, oy), 0;
    }
    var st, thrown;
    st, n, thrown := Search(s, start, maxCost);
    b := BoundingBox(s, st.reachable);
  }

  // ---- What follows ----

  /** The way from the start to a pixel, by its parents. */
  ghost function Way(s: Surface, start: Point, maxCost: int, st: State, h: History, p: Point): (w: seq<Point>)
    requires NodesOk(s, start, maxCost, st, h) && p in st.nodes
    ensures w != [] && w[0] == start && w[|w| - 1] == p
    decreases st.nodes[p].g, if p in h.stamps then h.stamps[p] else 0
  {
    assert NodeOk(s, start, maxCost, st, h, p);
    if p == start then [p] else Way(s, start, maxCost, st, h, st.nodes[p].parent.value) + [p]
  }

  /** Neighbours inside the surface, one after the other. */
  predicate IsWay(s: Surface, w: seq<Point>) {
    (forall i | 0 <= i < |w| :: Inside(s, w[i])) && forall i | 0 < i < |w| :: Adjacent(w[i], w[i - 1])
  }

  function WayCost(s: Surface, w: seq<Point>): nat {
    if |w| <= 1 then 0 else WayCost(s, w[..|w| - 1]) + PathCost(s, w[|w| - 1], w[|w| - 2])
  }

  /** Parents lead from every pixel that has a node to the start, at no more than the cost of the pixel. */
  lemma {:induction false} WayIsReal(s: Surface, start: Point, maxCost: int, st: State, h: History, p: Point)
    requires NodesOk(s, start, maxCost, st, h) && p in st.nodes
    ensures IsWay(s, Way(s, start, maxCost, st, h, p))
    ensures WayCost(s, Way(s, start, maxCost, st, h, p)) <= st.nodes[p].g
    decreases st.nodes[p].g, if p in h.stamps then h.stamps[p] else 0
  {
    hide PathCost;
    assert NodeOk(s, start, maxCost, st, h, p);
    if p != start {
      var q := st.nodes[p].parent.value;
      WayIsReal(s, start, maxCost, st, h, q);
      var w := Way(s, start, maxCost, st, h, q);
      assert (w + [p])[..|w|] == w;
    }
  }

  ghost predicate Leads(s: Surface, w: seq<Point>, p: Point, q: Point) {
    w != [] && w[0] == p && w[|w| - 1] == q && IsWay(s, w)
  }

  /** A way leads there that costs no more than the limit. */
  ghost predicate WithinCost(s: Surface, start: Point, p: Point, maxCost: int) {
    exists w :: Leads(s, w, start, p) && WayCost(s, w) <= maxCost
  }

  /** A way leads there past what has been dropped. */
  ghost predicate WithoutDropped(s: Surface, start: Point, p: Point, dropped: set<Point>) {
    exists w :: Leads(s, w, start, p) && forall i | 0 <= i < |w| :: w[i] !in dropped
  }

  /** Of a pixel that has been expanded, all parents have been. */
  lemma {:induction false} WayIsExpanded(s: Surface, start: Point, maxCost: int, st: State, h: History, p: Point)
    requires NodesOk(s, start, maxCost, st, h) && p in h.expanded && p in st.nodes
    ensures forall i | 0 <= i < |Way(s, start, maxCost, st, h, p)| :: Way(s, start, maxCost, st, h, p)[i] in h.expanded
    decreases st.nodes[p].g, if p in h.stamps then h.stamps[p] else 0
  {
    assert NodeOk(s, start, maxCost, st, h, p);
    if p != start {
      WayIsExpanded(s, start, maxCost, st, h, st.nodes[p].parent.value);
    }
  }

  /** In the end every pixel on a way past what has been dropped is expanded. */
  lemma {:induction false} WayIsFollowed(s: Surface, start: Point, maxCost: int, st: State, h: History, w: seq<Point>, i: nat)
    requires Whole(s, start, maxCost, st, h) && st.open == []
    requires i < |w| && w[0] == start && IsWay(s, w) && forall j | 0 <= j < |w| :: w[j] !in h.dropped
    ensures w[i] in h.expanded
  {
    if i > 0 {
      WayIsFollowed(s, start, maxCost, st, h, w, i - 1);
      assert Adjacent(w[i], w[i - 1]) && Inside(s, w[i]);
    }
    assert w[i] in st.nodes;
    assert NodeOk(s, start, maxCost, st, h, w[i]);
  }

  /**
   * What the search reports: pixels to which a way leads that costs no more than the limit. They are just those
   * to which a way leads past all that was beyond the limit when it was first seen.
   */
  lemma ReportedAreWithinCost(s: Surface, start: Point, maxCost: int, n: nat, p: Point)
    requires Inside(s, start) && !s.alpha(start) && After(s, start, maxCost, n).open == []
    ensures var st, h := After(s, start, maxCost, n), HistoryAfter(s, start, maxCost, n);
      && (p in st.reachable ==> WithinCost(s, start, p, maxCost))
      && (maxCost >= 0 ==> (p in st.reachable <==> WithoutDropped(s, start, p, h.dropped)))
  {
    hide After, HistoryAfter, PathCost, IsWay, WayCost, Limits, Closed, WithinCost, WithoutDropped, NodesOk, ListsOk;
    AfterIsWhole(s, start, maxCost, n);
    var st, h := After(s, start, maxCost, n), HistoryAfter(s, start, maxCost, n);
    if p in st.reachable {
      ReportedHaveWay(s, start, maxCost, st, h, p);
    }
    if maxCost >= 0 && WithoutDropped(s, start, p, h.dropped) {
      WithoutDroppedIsReached(s, start, maxCost, st, h, p);
    }
  }

  lemma WithoutDroppedIsReached(s: Surface, start: Point, maxCost: int, st: State, h: History, p: Point)
    requires Whole(s, start, maxCost, st, h) && st.open == [] && maxCost >= 0
    requires WithoutDropped(s, start, p, h.dropped)
    ensures p in st.reachable
  {
    hide Limits, Closed, NodesOk, ListsOk;
    var w :| Leads(s, w, start, p) && forall i | 0 <= i < |w| :: w[i] !in h.dropped;
    WayIsFollowed(s, start, maxCost, st, h, w, |w| - 1);
    ExpandedIsReached(s, start, maxCost, st, h, p);
  }

  lemma ReportedHaveWay(s: Surface, start: Point, maxCost: int, st: State, h: History, p: Point)
    requires Inv(s, start, maxCost, st, h) && p in st.reachable
    ensures WithinCost(s, start, p, maxCost) && WithoutDropped(s, start, p, h.dropped)
  {
    hide WayCost, Way, NodeOk;
    assert p in h.expanded;
    WayIsReal(s, start, maxCost, st, h, p);
    WayIsExpanded(s, start, maxCost, st, h, p);
    var w := Way(s, start, maxCost, st, h, p);
    assert Leads(s, w, start, p);
  }

  lemma ExpandedIsReached(s: Surface, start: Point, maxCost: int, st: State, h: History, p: Point)
    requires Inv(s, start, maxCost, st, h) && p in h.expanded && maxCost >= 0
    ensures p in st.reachable
  {
    assert NodeOk(s, start, maxCost, st, h, start);
    hide NodeOk;
  }

  // ---- When every pixel within the cost is reported ----

  /** Conditions on the surface and the limit, to be seen before the search. */
  ghost predicate Suffices(s: Surface, maxCost: int) {
    maxCost <= 0 || AllPicture(s) || maxCost >= 2 * (s.width * s.height - 1)
  }

  lemma {:induction false} GridSize(s: Surface)
    ensures |Grid(s)| == s.width * s.height
    decreases s.height
  {
    if s.height == 0 {
      assert Grid(s) == {};
    } else {
      var less, row := s.(height := s.height - 1), Row(s.width, s.height - 1);
      GridSize(less);
      RowSize(s.width, s.height - 1);
      GridByRows(s);
      hide Grid, Row;
      OneRowMore(s.width, s.height);
    }
  }

  lemma GridByRows(s: Surface)
    requires s.height > 0
    ensures var less, row := s.(height := s.height - 1), Row(s.width, s.height - 1);
      Grid(s) == Grid(less) + row && Grid(less) !! row
  {
  }

  lemma OneRowMore(width: nat, height: nat)
    requires height > 0
    ensures width * height == width * (height - 1) + width
  {
  }

  ghost function Row(width: nat, y: int): set<Point> {
    set x | 0 <= x < width :: Point(x, y)
  }

  lemma {:induction false} RowSize(width: nat, y: int)
    ensures |Row(width, y)| == width
  {
    if width == 0 {
      assert Row(width, y) == {};
    } else {
      RowSize(width - 1, y);
      assert Row(width, y) == Row(width - 1, y) + {Point(width - 1, y)};
    }
  }

  /** On a way that costs nothing from a pixel of the picture there is no background. */
  lemma {:induction false} FreeWayIsPicture(s: Surface, w: seq<Point>, i: nat)
    requires i < |w| && !s.alpha(w[0]) && WayCost(s, w) == 0
    ensures !s.alpha(w[i])
    decreases |w|
  {
    if |w| > 1 {
      var n := |w| - 1;
      FreeWayIsPicture(s, w[..n], if i < n then i else n - 1);
    }
  }

  /** Then the search is complete: it reports a pixel if and only if a way leads there within the limit. */
  lemma CompleteIfItSuffices(s: Surface, start: Point, maxCost: int, n: nat, p: Point)
    requires Inside(s, start) && !s.alpha(start) && After(s, start, maxCost, n).open == []
    requires Suffices(s, maxCost)
    ensures p in After(s, start, maxCost, n).reachable <==> WithinCost(s, start, p, maxCost)
  {
    hide After, HistoryAfter, IsWay, WayCost, Closed, Inv, AllPicture;
    ReportedAreWithinCost(s, start, maxCost, n, p);
    AfterIsWhole(s, start, maxCost, n);
    GridSize(s);
    var h := HistoryAfter(s, start, maxCost, n);
    if w :| Leads(s, w, start, p) && WayCost(s, w) <= maxCost {
      if maxCost == 0 {
        forall i | 0 <= i < |w|
          ensures w[i] !in h.dropped
        {
          FreeWayIsPicture(s, w, i);
        }
      } else {
        assert h.dropped == {};
      }
      assert WithoutDropped(s, start, p, h.dropped);
    }
  }

  // ---- And when not ----

  /** A limit that allows some cost. */
  type Limit = x: int | x >= 1 witness 1

  /** The last column of the part in which all pixels of a column cost the same. */
  function Base(maxCost: Limit): nat
  {
    2 * ((maxCost - 1) / 2) + 1
  }

  /** Columns of picture and background by turns, then half a column of background, then one more column. */
  predicate Background(maxCost: Limit, p: Point)
  {
    var b := Base(maxCost);
    if p.x <= b then p.x >= 2 && p.x % 2 == 0
    else if p.x == b + 1 then p.y == 0
    else maxCost % 2 == 0
  }

  /** Two rows, in which a limit of `maxCost` is reached at the end. */
  function Strip(maxCost: Limit): Surface
  {
    Surface(Base(maxCost) + 3, 2, (p: Point) => Background(maxCost, p))
  }

  /** The upper pixel of the last column. */
  function Missed(maxCost: Limit): Point
  {
    Point(Base(maxCost) + 2, 0)
  }

  /** What it costs to come to a pixel before the last column. */
  function StripCost(maxCost: Limit, p: Point): int
  {
    var b := Base(maxCost);
    if p.x <= 0 then 0 else if p.x <= b then p.x - 1 else b - 1 + if p.y == 0 then 1 else 0
  }

  /** All of the strip up to a column, and no more, has been seen, at the least cost. */
  ghost predicate Known(maxCost: Limit, x: nat, st: State)
  {
    && (forall p :: p in st.nodes <==> Inside(Strip(maxCost), p) && p.x <= x)
    && (forall p | p in st.nodes :: st.nodes[p].g == StripCost(maxCost, p))
    && (forall p | p in st.open || p in st.reachable :: p in st.nodes)
  }

  /** The upper pixel of the last column seen is next. */
  ghost predicate Ready(maxCost: Limit, x: nat, st: State)
  {
    1 <= x <= Base(maxCost) + 1 && Known(maxCost, x, st) && st.open != [] && st.open[0] == Point(x, 0)
  }

  /** Column x has been seen, but older pixels are still queued before it. */
  ghost predicate Draining(maxCost: Limit, x: nat, st: State)
  {
    && 1 <= x <= Base(maxCost) + 1 && Known(maxCost, x, st) && |st.open| >= 2
    && st.open[|st.open| - 2] == Point(x, 0)
    && forall i | 0 <= i < |st.open| - 2 :: st.open[i].x < x
  }

  lemma BaseIsOdd(maxCost: Limit)
    ensures Base(maxCost) % 2 == 1 && Base(maxCost) == if maxCost % 2 == 1 then maxCost else maxCost - 1
  {
  }

  /** There is no cheaper way to a pixel than those the costs stand for. */
  lemma NothingCheaper(maxCost: Limit, p: Point, q: Point)
    requires Adjacent(p, q) && 0 <= p.x <= Base(maxCost) + 1 && 0 <= q.x <= Base(maxCost) + 1
    ensures PathCost(Strip(maxCost), p, q) + StripCost(maxCost, q) >= StripCost(maxCost, p)
  {
    BaseIsOdd(maxCost);
    hide Base;
  }

  /** The next column is seen at just its cost, which is within the limit. */
  lemma NextColumn(maxCost: Limit, x: nat, y: int)
    requires x <= Base(maxCost) && 0 <= y <= 1
    ensures var p := Point(x + 1, y);
      && PathCost(Strip(maxCost), p, Point(x, 0)) + StripCost(maxCost, Point(x, 0)) == StripCost(maxCost, p)
      && StripCost(maxCost, p) <= maxCost
  {
    BaseIsOdd(maxCost);
    hide Base;
  }

  lemma {:induction false} NothingNearer(s: Surface, maxCost: int, st: State, current: Point, ps: seq<Point>)
    requires current in st.nodes
    requires forall p | p in ps :: p in st.nodes && Through(s, st, current, p) >= st.nodes[p].g
    ensures VisitedAll(s, maxCost, st, current, ps) == st
    decreases |ps|
  {
    if ps != [] {
      assert ps[0] in ps;
      NothingNearer(s, maxCost, st, current, ps[1..]);
    }
  }

  lemma VisitOne(s: Surface, maxCost: int, st: State, current: Point, p: Point, rest: seq<Point>)
    requires current in st.nodes
    ensures VisitedAll(s, maxCost, st, current, [p] + rest)
      == VisitedAll(s, maxCost, Visited(s, maxCost, st, current, p), current, rest)
  {
    assert ([p] + rest)[1..] == rest;
  }

  /** A pixel whose neighbours are all known changes none of them. */
  lemma AllKnown(maxCost: Limit, x: nat, st: State, current: Point)
    requires Known(maxCost, x, st) && x <= Base(maxCost) + 1 && current in st.nodes
    ensures forall p | p in Neighbours(Strip(maxCost), current) && p.x <= x ::
      p in st.nodes && Through(Strip(maxCost), st, current, p) >= st.nodes[p].g
  {
    hide Base, StripCost, PathCost, Strip, Neighbours;
    var s := Strip(maxCost);
    AllNeighbours(s, current);
    forall p | p in Neighbours(s, current) && p.x <= x
      ensures p in st.nodes && Through(s, st, current, p) >= st.nodes[p].g
    {
      KnownInside(maxCost, x, st, p);
      KnownInside(maxCost, x, st, current);
      NothingCheaper(maxCost, p, current);
    }
  }

  /** A queued pixel from before the last column changes nothing but the queue. */
  lemma DrainOne(maxCost: Limit, x: nat, st: State)
    requires Draining(maxCost, x, st) && |st.open| > 2
    ensures Stepped(Strip(maxCost), maxCost, st) == Expanded(st, maxCost)
    ensures Draining(maxCost, x, Expanded(st, maxCost))
  {
    var s, current := Strip(maxCost), st.open[0];
    assert current in st.open && current in st.nodes;
    hide Base, StripCost, PathCost, Strip;
    StillKnown(maxCost, x, st);
    hide Known;
    AllKnown(maxCost, x, Expanded(st, maxCost), current);
    hide Through;
    NeighboursNear(s, current);
    NothingNearer(s, maxCost, Expanded(st, maxCost), current, Neighbours(s, current));
  }

  lemma NeighboursNear(s: Surface, p: Point)
    ensures forall q | q in Neighbours(s, p) :: q.x <= p.x + 1
  {
    hide Neighbours;
    AllNeighbours(s, p);
  }

  lemma KnownInside(maxCost: Limit, x: nat, st: State, p: Point)
    requires Known(maxCost, x, st)
    ensures p in st.nodes ==> 0 <= p.x <= x && 0 <= p.y <= 1
    ensures Inside(Strip(maxCost), p) && p.x <= x ==> p in st.nodes
  {
  }

  lemma StillKnown(maxCost: Limit, x: nat, st: State)
    requires Known(maxCost, x, st) && st.open != [] && st.open[0] in st.nodes
    ensures Known(maxCost, x, Expanded(st, maxCost))
  {
    hide StripCost;
    assert forall p | p in st.open[1..] :: p in st.open;
  }

  lemma {:induction false} Drain(maxCost: Limit, x: nat, n: nat) returns (m: nat)
    requires Draining(maxCost, x, After(Strip(maxCost), Point(0, 0), maxCost, n))
    ensures Ready(maxCost, x, After(Strip(maxCost), Point(0, 0), maxCost, m))
    decreases |After(Strip(maxCost), Point(0, 0), maxCost, n).open|
  {
    hide Known, Stepped, Strip;
    var st := After(Strip(maxCost), Point(0, 0), maxCost, n);
    if |st.open| == 2 {
      m := n;
    } else {
      DrainOne(maxCost, x, st);
      m := Drain(maxCost, x, n + 1);
    }
  }

  /** The neighbours of an upper pixel that is at neither side, and those of the first. */
  lemma AroundUpper(s: Surface, x: nat)
    requires s.height == 2 && 1 <= x && x + 1 < s.width
    ensures Neighbours(s, Point(x, 0)) ==
      [Point(x - 1, 0)] + ([Point(x + 1, 0)] + ([Point(x, 1), Point(x - 1, 1)] + [Point(x + 1, 1)]))
  {
    UpperPieces(s, x);
    var p := Point(x, 0);
    var straight, diagonal := Straight(s, p), Diagonal(s, p);
    assert Neighbours(s, p) == straight + diagonal;
    hide *;
    Regroup(Point(x - 1, 0), Point(x + 1, 0), Point(x, 1), Point(x - 1, 1), Point(x + 1, 1));
  }

  lemma UpperPieces(s: Surface, x: nat)
    requires s.height == 2 && 1 <= x && x + 1 < s.width
    ensures Straight(s, Point(x, 0)) == [Point(x - 1, 0)] + [Point(x + 1, 0)] + [] + [Point(x, 1)]
    ensures Diagonal(s, Point(x, 0)) == [] + [] + [Point(x - 1, 1)] + [Point(x + 1, 1)]
  {
    assert IfInside(s, x - 1, 0) == [Point(x - 1, 0)] && IfInside(s, x + 1, 0) == [Point(x + 1, 0)];
    assert IfInside(s, x, -1) == [] && IfInside(s, x, 1) == [Point(x, 1)];
    assert IfInside(s, x - 1, -1) == [] && IfInside(s, x + 1, -1) == [];
    assert IfInside(s, x - 1, 1) == [Point(x - 1, 1)] && IfInside(s, x + 1, 1) == [Point(x + 1, 1)];
    hide IfInside, Inside, Adjacent;
  }

  lemma Regroup(w: Point, e: Point, n: Point, sw: Point, se: Point)
    ensures ([w] + [e] + [] + [n]) + ([] + [] + [sw] + [se]) == [w] + ([e] + ([n, sw] + [se]))
  {
  }

  lemma AroundFirst(s: Surface)
    requires s.height == 2 && s.width > 1
    ensures Neighbours(s, Point(0, 0)) == [Point(1, 0)] + ([Point(0, 1)] + ([Point(1, 1)] + []))
  {
    assert IfInside(s, -1, 0) == [] && IfInside(s, 1, 0) == [Point(1, 0)];
    assert IfInside(s, 0, -1) == [] && IfInside(s, 0, 1) == [Point(0, 1)];
    assert IfInside(s, -1, -1) == [] && IfInside(s, 1, -1) == [];
    assert IfInside(s, -1, 1) == [] && IfInside(s, 1, 1) == [Point(1, 1)];
    hide IfInside, Inside, Adjacent;
  }

  lemma {:induction false} VisitAppend(s: Surface, maxCost: int, st: State, current: Point, ps: seq<Point>, qs: seq<Point>)
    requires current in st.nodes
    ensures current in VisitedAll(s, maxCost, st, current, ps).nodes
    ensures VisitedAll(s, maxCost, st, current, ps + qs)
      == VisitedAll(s, maxCost, VisitedAll(s, maxCost, st, current, ps), current, qs)
    decreases |ps|
  {
    hide Visited;
    if ps == [] {
      assert ps + qs == qs;
    } else {
      assert (ps + qs)[1..] == ps[1..] + qs;
      VisitAppend(s, maxCost, Visited(s, maxCost, st, current, ps[0]), current, ps[1..], qs);
    }
  }

  /** Nothing is changed at the pixels of a column and the one before. */
  ghost predicate OldAround(s: Surface, st: State, x: nat) {
    && Point(x, 0) in st.nodes
    && NotNearer(s, st, Point(x, 0), Point(x - 1, 0))
    && NotNearer(s, st, Point(x, 0), Point(x, 1))
    && NotNearer(s, st, Point(x, 0), Point(x - 1, 1))
  }

  ghost predicate NotNearer(s: Surface, st: State, current: Point, p: Point)
    requires current in st.nodes
  {
    p in st.nodes && Through(s, st, current, p) >= st.nodes[p].g
  }

  /** From an upper pixel only the two of the next column can be new. */
  lemma UpperVisits(s: Surface, maxCost: int, st: State, x: nat)
    requires s.height == 2 && 1 <= x && x + 1 < s.width && OldAround(s, st, x)
    requires Point(x + 1, 0) !in st.nodes
    ensures var t := Visited(s, maxCost, st, Point(x, 0), Point(x + 1, 0));
      && VisitedAll(s, maxCost, st, Point(x, 0), Neighbours(s, Point(x, 0)))
           == VisitedAll(s, maxCost, t, Point(x, 0), [Point(x, 1), Point(x - 1, 1)] + [Point(x + 1, 1)])
      && VisitedAll(s, maxCost, t, Point(x, 0), [Point(x, 1), Point(x - 1, 1)] + [Point(x + 1, 1)])
           == Visited(s, maxCost, t, Point(x, 0), Point(x + 1, 1))
  {
    var current, e, se := Point(x, 0), Point(x + 1, 0), Point(x + 1, 1);
    AroundUpper(s, x);
    hide Neighbours, VisitedAll, PathCost;
    VisitOne(s, maxCost, st, current, Point(x - 1, 0), [e] + ([Point(x, 1), Point(x - 1, 1)] + [se]));
    VisitOne(s, maxCost, st, current, e, [Point(x, 1), Point(x - 1, 1)] + [se]);
    var t := Visited(s, maxCost, st, current, e);
    VisitAppend(s, maxCost, t, current, [Point(x, 1), Point(x - 1, 1)], [se]);
    NothingNearer(s, maxCost, t, current, [Point(x, 1), Point(x - 1, 1)]);
    VisitLast(s, maxCost, t, current, se);
  }

  lemma VisitLast(s: Surface, maxCost: int, st: State, current: Point, p: Point)
    requires current in st.nodes
    ensures VisitedAll(s, maxCost, st, current, [p]) == Visited(s, maxCost, st, current, p)
  {
    hide Visited;
  }

  /** From a known column to the next. */
  lemma NextReady(maxCost: Limit, x: nat, st: State)
    requires Ready(maxCost, x, st) && x <= Base(maxCost)
    ensures Draining(maxCost, x + 1, Stepped(Strip(maxCost), maxCost, st))
  {
    hide Neighbours, VisitedAll, PathCost, StripCost, Base, Known, Strip, OldAround;
    UpperIsKnown(maxCost, x, st);
    var s, current, e, se := Strip(maxCost), Point(x, 0), Point(x + 1, 0), Point(x + 1, 1);
    var t := Expanded(st, maxCost);
    UpperVisits(s, maxCost, t, x);
    NextColumn(maxCost, x, 0);
    NextColumn(maxCost, x, 1);
    var u := Visited(s, maxCost, t, current, e);
    var v := Visited(s, maxCost, u, current, se);
    assert Stepped(s, maxCost, st) == v;
    ColumnIsKnown(maxCost, x, t, v);
    assert v.open == st.open[1..] + [e, se];
    OpenIsKnown(maxCost, x, st);
  }

  lemma ColumnIsKnown(maxCost: Limit, x: nat, st: State, t: State)
    requires Known(maxCost, x, st) && x <= Base(maxCost)
    requires var e, se := Point(x + 1, 0), Point(x + 1, 1);
      && e in t.nodes && t.nodes[e].g == StripCost(maxCost, e)
      && se in t.nodes && t.nodes[se].g == StripCost(maxCost, se)
      && t.nodes == st.nodes[e := t.nodes[e]][se := t.nodes[se]]
      && t.open == st.open + [e] + [se] && t.reachable == st.reachable
    ensures Known(maxCost, x + 1, t)
  {
    hide StripCost;
  }

  lemma OpenIsKnown(maxCost: Limit, x: nat, st: State)
    requires Known(maxCost, x, st)
    ensures forall i | 0 <= i < |st.open| :: st.open[i].x <= x
  {
    forall i | 0 <= i < |st.open|
      ensures st.open[i].x <= x
    {
      assert st.open[i] in st.open;
    }
  }

  /** What is around an upper pixel is known, but for the next column. */
  lemma UpperIsKnown(maxCost: Limit, x: nat, st: State)
    requires Ready(maxCost, x, st)
    ensures var s, t := Strip(maxCost), Expanded(st, maxCost);
      && Known(maxCost, x, t) && st.open[0] in st.nodes && x + 1 < s.width && s.height == 2
      && Point(x + 1, 0) !in t.nodes && Point(x + 1, 1) !in t.nodes
      && Point(x, 0) in t.nodes && t.nodes[Point(x, 0)].g == StripCost(maxCost, Point(x, 0))
      && OldAround(s, t, x)
  {
    hide StripCost, PathCost, Base, Neighbours;
    var s, t, current := Strip(maxCost), Expanded(st, maxCost), Point(x, 0);
    assert st.open[0] in st.open;
    StillKnown(maxCost, x, st);
    AllKnown(maxCost, x, t, current);
    NeighboursAre(s, current, Point(x - 1, 0));
    NeighboursAre(s, current, Point(x, 1));
    NeighboursAre(s, current, Point(x - 1, 1));
  }

  lemma FirstReady(maxCost: Limit)
    ensures Ready(maxCost, 1, After(Strip(maxCost), Point(0, 0), maxCost, 1))
  {
    var s, start := Strip(maxCost), Point(0, 0);
    var st := Expanded(Started(start), maxCost);
    BaseIsOdd(maxCost);
    FirstVisits(s, maxCost, st);
    FirstCosts(maxCost);
    hide Neighbours, VisitedAll, Base, Strip, StripCost, Ready;
    assert After(s, start, maxCost, 0) == Started(start);
    hide After;
    FirstStates(s, maxCost, st);
    FirstIsKnown(maxCost, Stepped(s, maxCost, Started(start)));
    AfterOne(s, start, maxCost);
  }

  lemma AfterOne(s: Surface, start: Point, maxCost: int)
    ensures After(s, start, maxCost, 1) == Stepped(s, maxCost, Started(start))
  {
    hide Stepped;
    assert After(s, start, maxCost, 0) == Started(start);
  }

  /** Three pixels that cost nothing are found from the first. */
  lemma FirstStates(s: Surface, maxCost: Limit, st: State)
    requires st.nodes.Keys == {Point(0, 0)} && st.nodes[Point(0, 0)].g == 0 && st.open == []
    requires PathCost(s, Point(1, 0), Point(0, 0)) == 0 && PathCost(s, Point(0, 1), Point(0, 0)) == 0
    requires PathCost(s, Point(1, 1), Point(0, 0)) == 0
    ensures var start := Point(0, 0);
      var t := Visited(s, maxCost, st, start, Point(1, 0));
      var u := Visited(s, maxCost, t, start, Point(0, 1));
      var v := Visited(s, maxCost, u, start, Point(1, 1));
      && v.open == [Point(1, 0), Point(0, 1), Point(1, 1)] && v.reachable == st.reachable
      && v.nodes.Keys == {start, Point(1, 0), Point(0, 1), Point(1, 1)}
      && forall p | p in v.nodes :: v.nodes[p].g == 0
  {
    hide PathCost;
  }

  lemma FirstIsKnown(maxCost: Limit, st: State)
    requires st.open == [Point(1, 0), Point(0, 1), Point(1, 1)] && st.reachable == [Point(0, 0)]
    requires st.nodes.Keys == {Point(0, 0), Point(1, 0), Point(0, 1), Point(1, 1)}
    requires forall p | p in st.nodes :: st.nodes[p].g == 0
    ensures Ready(maxCost, 1, st)
  {
    BaseIsOdd(maxCost);
    hide Base;
  }

  lemma FirstVisits(s: Surface, maxCost: int, st: State)
    requires s.height == 2 && s.width > 1 && Point(0, 0) in st.nodes
    ensures var start := Point(0, 0);
      var t := Visited(s, maxCost, st, start, Point(1, 0));
      var u := Visited(s, maxCost, t, start, Point(0, 1));
      VisitedAll(s, maxCost, st, start, Neighbours(s, start)) == Visited(s, maxCost, u, start, Point(1, 1))
  {
    var start := Point(0, 0);
    AroundFirst(s);
    hide Neighbours, Visited, VisitedAll;
    VisitOne(s, maxCost, st, start, Point(1, 0), [Point(0, 1)] + ([Point(1, 1)] + []));
    var t := Visited(s, maxCost, st, start, Point(1, 0));
    VisitOne(s, maxCost, t, start, Point(0, 1), [Point(1, 1)] + []);
    assert [Point(1, 1)] + [] == [Point(1, 1)];
    VisitLast(s, maxCost, Visited(s, maxCost, t, start, Point(0, 1)), start, Point(1, 1));
  }

  lemma FirstCosts(maxCost: Limit)
    ensures PathCost(Strip(maxCost), Point(1, 0), Point(0, 0)) == 0
    ensures PathCost(Strip(maxCost), Point(0, 1), Point(0, 0)) == 0
    ensures PathCost(Strip(maxCost), Point(1, 1), Point(0, 0)) == 0
  {
    BaseIsOdd(maxCost);
    hide Base;
  }

  lemma {:induction false} ReadyAt(maxCost: Limit, x: nat) returns (n: nat)
    requires 1 <= x <= Base(maxCost) + 1
    ensures Ready(maxCost, x, After(Strip(maxCost), Point(0, 0), maxCost, n))
  {
    hide Ready, Draining, Stepped, Strip;
    if x == 1 {
      FirstReady(maxCost);
      n := 1;
    } else {
      var k := ReadyAt(maxCost, x - 1);
      NextReady(maxCost, x - 1, After(Strip(maxCost), Point(0, 0), maxCost, k));
      n := Drain(maxCost, x, k + 1);
    }
  }

  // The last pixel is first seen beyond the limit, and never queued.

  ghost predicate NeverQueued(p: Point, st: State) {
    p in st.nodes && p !in st.open && p !in st.reachable
  }

  lemma {:induction false} NeverQueuedByVisits(s: Surface, maxCost: int, st: State, current: Point, ps: seq<Point>, p: Point)
    requires current in st.nodes && NeverQueued(p, st)
    ensures NeverQueued(p, VisitedAll(s, maxCost, st, current, ps))
    decreases |ps|
  {
    hide PathCost;
    if ps != [] {
      NeverQueuedByVisits(s, maxCost, Visited(s, maxCost, st, current, ps[0]), current, ps[1..], p);
    }
  }

  lemma NeverQueuedStays(s: Surface, maxCost: int, st: State, p: Point)
    requires NeverQueued(p, st)
    ensures NeverQueued(p, Stepped(s, maxCost, st))
  {
    if st.open != [] && st.open[0] in st.nodes {
      assert st.open[0] in st.open && forall q | q in st.open[1..] :: q in st.open;
      NeverQueuedByVisits(s, maxCost, Expanded(st, maxCost), st.open[0], Neighbours(s, st.open[0]), p);
    }
  }

  lemma LastIsDropped(maxCost: Limit, st: State)
    requires Ready(maxCost, Base(maxCost) + 1, st)
    ensures NeverQueued(Missed(maxCost), Stepped(Strip(maxCost), maxCost, st))
  {
    var s, x, q := Strip(maxCost), Base(maxCost) + 1, Missed(maxCost);
    assert q == Point(x + 1, 0) && q.x > x;
    UpperIsKnown(maxCost, x, st);
    var current, t := Point(x, 0), Expanded(st, maxCost);
    KnownOnly(maxCost, x, t, q);
    LastIsBeyond(maxCost);
    hide Neighbours, VisitedAll, PathCost, StripCost, Base, Missed, Known, Strip, OldAround, Inside;
    assert Stepped(s, maxCost, st) == VisitedAll(s, maxCost, t, current, Neighbours(s, current));
    hide Stepped;
    UpperVisits(s, maxCost, t, x);
    var u := Visited(s, maxCost, t, current, q);
    assert NeverQueued(q, u);
    NeverQueuedByVisits(s, maxCost, u, current, [Point(x, 1), Point(x - 1, 1)] + [Point(x + 1, 1)], q);
  }

  lemma KnownOnly(maxCost: Limit, x: nat, st: State, p: Point)
    requires Known(maxCost, x, st) && p !in st.nodes
    ensures p !in st.open && p !in st.reachable
  {
  }

  lemma LastIsBeyond(maxCost: Limit)
    ensures var c := Point(Base(maxCost) + 1, 0);
      PathCost(Strip(maxCost), Missed(maxCost), c) + StripCost(maxCost, c) == maxCost + 1
  {
    BaseIsOdd(maxCost);
    hide Base;
  }

  lemma {:induction false} NeverQueuedAfter(s: Surface, start: Point, maxCost: int, n: nat, m: nat, p: Point)
    requires n <= m && NeverQueued(p, After(s, start, maxCost, n))
    ensures NeverQueued(p, After(s, start, maxCost, m))
    decreases m
  {
    hide NeverQueued, Stepped;
    if n < m {
      NeverQueuedAfter(s, start, maxCost, n, m - 1, p);
      NeverQueuedStays(s, maxCost, After(s, start, maxCost, m - 1), p);
    }
  }

  lemma {:induction false} EndedStays(s: Surface, start: Point, maxCost: int, n: nat, m: nat)
    requires n <= m && After(s, start, maxCost, n).open == []
    ensures After(s, start, maxCost, m) == After(s, start, maxCost, n)
    decreases m
  {
    hide VisitedAll;
    if n < m {
      EndedStays(s, start, maxCost, n, m - 1);
    }
  }

  // Along the lower row it can be reached within the limit.

  function Walk(x: nat): seq<Point> {
    if x == 0 then [Point(0, 0)] else Walk(x - 1) + [Point(x, 1)]
  }

  lemma {:induction false} WalkIsWay(maxCost: Limit, x: nat)
    requires x <= Base(maxCost) + 1
    ensures var s, w := Strip(maxCost), Walk(x);
      && Leads(s, w, Point(0, 0), Point(x, if x == 0 then 0 else 1))
      && WayCost(s, w) == StripCost(maxCost, Point(x, 1))
  {
    if x > 0 {
      WalkIsWay(maxCost, x - 1);
      WalkOn(maxCost, x);
      hide StripCost, PathCost, Base, Strip;
      LongerWay(Strip(maxCost), Walk(x - 1), Point(0, 0), Point(x - 1, if x == 1 then 0 else 1), Point(x, 1));
    }
  }

  lemma WalkOn(maxCost: Limit, x: nat)
    requires 0 < x <= Base(maxCost) + 1
    ensures Inside(Strip(maxCost), Point(x, 1))
    ensures PathCost(Strip(maxCost), Point(x, 1), Point(x - 1, if x == 1 then 0 else 1))
         == StripCost(maxCost, Point(x, 1)) - StripCost(maxCost, Point(x - 1, 1))
  {
    BaseIsOdd(maxCost);
    hide Base;
  }

  lemma LongerWay(s: Surface, w: seq<Point>, start: Point, p: Point, q: Point)
    requires Leads(s, w, start, p) && Adjacent(q, p) && Inside(s, q)
    ensures Leads(s, w + [q], start, q) && WayCost(s, w + [q]) == WayCost(s, w) + PathCost(s, q, p)
  {
    assert (w + [q])[..|w|] == w;
  }

  lemma LastIsWithinCost(maxCost: Limit)
    ensures WithinCost(Strip(maxCost), Point(0, 0), Missed(maxCost), maxCost)
  {
    var x := Base(maxCost) + 1;
    WalkIsWay(maxCost, x);
    LastStep(maxCost);
    hide Strip, StripCost, PathCost, Base;
    LongerWay(Strip(maxCost), Walk(x), Point(0, 0), Point(x, 1), Missed(maxCost));
  }

  lemma LastStep(maxCost: Limit)
    ensures var p := Point(Base(maxCost) + 1, 1);
      && Adjacent(Missed(maxCost), p) && Inside(Strip(maxCost), Missed(maxCost))
      && PathCost(Strip(maxCost), Missed(maxCost), p) + StripCost(maxCost, p) <= maxCost
  {
    BaseIsOdd(maxCost);
    hide Base;
  }

  /** With any cost allowed at all, there is a surface on which a pixel within the cost is missed. */
  lemma PixelsWithinCostAreMissed(maxCost: Limit, n: nat)
    requires After(Strip(maxCost), Point(0, 0), maxCost, n).open == []
    ensures WithinCost(Strip(maxCost), Point(0, 0), Missed(maxCost), maxCost)
    ensures Missed(maxCost) !in After(Strip(maxCost), Point(0, 0), maxCost, n).reachable
  {
    hide Strip, Missed, WithinCost, Stepped, Known;
    var s, start, q := Strip(maxCost), Point(0, 0), Missed(maxCost);
    LastIsWithinCost(maxCost);
    var m := ReadyAt(maxCost, Base(maxCost) + 1);
    LastIsDropped(maxCost, After(s, start, maxCost, m));
    if n <= m {
      EndedStays(s, start, maxCost, n, m);
    } else {
      NeverQueuedAfter(s, start, maxCost, m + 1, n, q);
    }
  }

  /** The search reports just the pixels within the cost. */
  ghost predicate Complete(s: Surface, start: Point, maxCost: int) {
    forall n, p | After(s, start, maxCost, n).open == [] ::
      p in After(s, start, maxCost, n).reachable <==> WithinCost(s, start, p, maxCost)
  }

  /** The search is complete on every surface, from every place in a picture, if and only if no cost is allowed. */
  lemma CompleteOnlyWithoutCost(maxCost: int)
    ensures maxCost <= 0 <==> forall s, start | Inside(s, start) && !s.alpha(start) :: Complete(s, start, maxCost)
  {
    hide After, WithinCost;
    if maxCost <= 0 {
      forall s, start | Inside(s, start) && !s.alpha(start)
        ensures Complete(s, start, maxCost)
      {
        forall n, p | After(s, start, maxCost, n).open == []
          ensures p in After(s, start, maxCost, n).reachable <==> WithinCost(s, start, p, maxCost)
        {
          CompleteIfItSuffices(s, start, maxCost, n, p);
        }
      }
    } else {
      var s, start := Strip(maxCost), Point(0, 0);
      var n := Finishes(s, start, maxCost, 0);
      PixelsWithinCostAreMissed(maxCost, n);
      assert !Complete(s, start, maxCost);
    }
  }
}
