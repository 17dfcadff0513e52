/**
 * What one turn of the search does, said without its loops: which pixel it takes, what this offers to the pixels
 * around it, and that the cost of a pixel is the least it was ever offered.
 */
module PixelTurns {
  import opened Common
  import opened PixelSearch

  /** The pixel taken at a turn, if the search is not over. */
  ghost function TakenAt(s: Surface, start: Point, maxCost: int, m: nat): Option<Point> {
    var st := After(s, start, maxCost, m);
    if st.open == [] then None else Some(st.open[0])
  }

  /** What p costs by way of the pixel taken at turn m, at the cost that this has then; nothing if it is not next to it. */
  ghost function Offer(s: Surface, start: Point, maxCost: int, m: nat, p: Point): Option<int> {
    var st, c := After(s, start, maxCost, m), TakenAt(s, start, maxCost, m);
    if c.Some? && c.value in st.nodes && Adjacent(p, c.value) && Inside(s, p) then
      Some(st.nodes[c.value].g + PathCost(s, p, c.value))
    else None
  }

  /** The pixel has the same cost and parent in both states, or no node in either. */
  predicate SameNode(st: State, t: State, p: Point) {
    && (p in st.nodes <==> p in t.nodes)
    && (p in st.nodes ==> t.nodes[p].g == st.nodes[p].g && t.nodes[p].parent == st.nodes[p].parent)
  }

  /** The pixel takes the offer of c, or has a cost that is no higher already. */
  predicate TakesOffer(st: State, t: State, p: Point, c: Point, offer: int) {
    if p in st.nodes && st.nodes[p].g <= offer then SameNode(st, t, p)
    else p in t.nodes && t.nodes[p].g == offer && t.nodes[p].parent == Some(c)
  }

  lemma VisitedAt(s: Surface, maxCost: int, st: State, c: Point, q: Point, p: Point)
    requires c in st.nodes && q != c
    ensures var t, offer := Visited(s, maxCost, st, c, q), Through(s, st, c, q);
      && c in t.nodes && t.nodes[c] == st.nodes[c] && t.reachable == st.reachable
      && t.open == st.open + (if q !in st.nodes && offer <= maxCost then [q] else [])
      && (if p == q then TakesOffer(st, t, p, c, offer) else SameNode(st, t, p))
  {
    hide PathCost;
  }

  lemma {:induction false} VisitedAllAt(s: Surface, maxCost: int, st: State, c: Point, ps: seq<Point>, p: Point)
    requires c in st.nodes && c !in ps
    ensures var t, offer := VisitedAll(s, maxCost, st, c, ps), PathCost(s, p, c) + st.nodes[c].g;
      && t.reachable == st.reachable && st.open <= t.open
      && (p in t.open[|st.open|..] <==> p in ps && p !in st.nodes && offer <= maxCost)
      && (if p in ps then TakesOffer(st, t, p, c, offer) else SameNode(st, t, p))
    decreases |ps|
  {
    hide PathCost, Visited;
    if ps != [] {
      var q, u := ps[0], Visited(s, maxCost, st, c, ps[0]);
      var t := VisitedAll(s, maxCost, st, c, ps);
      VisitedAt(s, maxCost, st, c, q, p);
      VisitedAllAt(s, maxCost, u, c, ps[1..], p);
      assert p in ps <==> p == q || p in ps[1..];
      assert t.open[|st.open|..] == u.open[|st.open|..] + t.open[|u.open|..];
    }
  }

  /**
   * One turn takes the front of the queue, and reports it if it is within the limit. Each pixel next to it takes what
   * it is offered if this is less than what it has, and nothing else changes. New pixels within the limit go to the end
   * of the queue.
   */
  lemma TurnIs(s: Surface, start: Point, maxCost: int, m: nat, p: Point)
    requires Inside(s, start) && !s.alpha(start) && TakenAt(s, start, maxCost, m).Some?
    ensures var st, t := After(s, start, maxCost, m), After(s, start, maxCost, m + 1);
      var c, offer := TakenAt(s, start, maxCost, m).value, Offer(s, start, maxCost, m, p);
      && c in st.nodes
      && t.reachable == st.reachable + (if st.nodes[c].g <= maxCost then [c] else [])
      && st.open[1..] <= t.open
      && (p in t.open[|st.open| - 1..] <==> offer.Some? && p !in st.nodes && offer.value <= maxCost)
      && (if offer.Some? then TakesOffer(st, t, p, c, offer.value) else SameNode(st, t, p))
  {
    hide PathCost, Inside, Adjacent, After, HistoryAfter, Inv, Limits, Closed, Neighbours, VisitedAll;
    var st := After(s, start, maxCost, m);
    AfterIsWhole(s, start, maxCost, m);
    ExpandInv(s, start, maxCost, st, HistoryAfter(s, start, maxCost, m));
    var c, u := st.open[0], Expanded(st, maxCost);
    NextTurn(s, start, maxCost, m);
    AllNeighbours(s, c);
    NotNextToItself(c);
    VisitedAllAt(s, maxCost, u, c, Neighbours(s, c), p);
  }

  lemma NextTurn(s: Surface, start: Point, maxCost: int, m: nat)
    ensures After(s, start, maxCost, m + 1) == Stepped(s, maxCost, After(s, start, maxCost, m))
  {
  }

  lemma NotNextToItself(p: Point)
    ensures !Adjacent(p, p)
  {
  }

  // ---- Costs ----

  /** Of all offers in the first n turns, that of turn m is the least, and the first as low as this. */
  ghost predicate IsLeastOffer(s: Surface, start: Point, maxCost: int, n: nat, m: nat, p: Point) {
    && m < n && Offer(s, start, maxCost, m, p).Some?
    && (forall k: nat | k < n && Offer(s, start, maxCost, k, p).Some? ::
          Offer(s, start, maxCost, m, p).value <= Offer(s, start, maxCost, k, p).value)
    && (forall k: nat | k < m && Offer(s, start, maxCost, k, p).Some? ::
          Offer(s, start, maxCost, m, p).value < Offer(s, start, maxCost, k, p).value)
  }

  /**
   * After any number of turns a pixel other than the start has a node just if it was offered a cost, and has the least
   * offer, with the first pixel to make it as its parent. The start costs nothing.
   */
  lemma {:induction false} CostIsLeastOffer(s: Surface, start: Point, maxCost: int, n: nat, p: Point) returns (m: nat)
    requires Inside(s, start) && !s.alpha(start)
    ensures var st := After(s, start, maxCost, n);
      if p == start then p in st.nodes && st.nodes[p].g == 0 && st.nodes[p].parent == None
      else if p in st.nodes then
        && IsLeastOffer(s, start, maxCost, n, m, p)
        && st.nodes[p].g == Offer(s, start, maxCost, m, p).value && st.nodes[p].parent == TakenAt(s, start, maxCost, m)
      else forall k: nat | k < n :: Offer(s, start, maxCost, k, p) == None
  {
    hide Offer, TakenAt, After;
    m := 0;
    if n == 0 {
      AtTheStart(s, start, maxCost, p);
    } else {
      m := CostIsLeastOffer(s, start, maxCost, n - 1, p);
      if TakenAt(s, start, maxCost, n - 1).Some? {
        TurnIs(s, start, maxCost, n - 1, p);
        var offer := Offer(s, start, maxCost, n - 1, p);
        if p == start {
          StartStays(s, start, maxCost, n);
        } else if offer.Some? && (p !in After(s, start, maxCost, n - 1).nodes || offer.value < After(s, start, maxCost, n - 1).nodes[p].g) {
          m := n - 1;
        }
      } else {
        NothingTaken(s, start, maxCost, n - 1, p);
      }
    }
  }

  lemma AtTheStart(s: Surface, start: Point, maxCost: int, p: Point)
    ensures var st := After(s, start, maxCost, 0);
      (p in st.nodes <==> p == start) && (p == start ==> st.nodes[p].g == 0 && st.nodes[p].parent == None)
  {
  }

  lemma StartStays(s: Surface, start: Point, maxCost: int, n: nat)
    requires Inside(s, start) && !s.alpha(start)
    ensures var st := After(s, start, maxCost, n); start in st.nodes && st.nodes[start].g == 0 && st.nodes[start].parent == None
  {
    AfterIsWhole(s, start, maxCost, n);
    assert NodeOk(s, start, maxCost, After(s, start, maxCost, n), HistoryAfter(s, start, maxCost, n), start);
  }

  lemma NothingTaken(s: Surface, start: Point, maxCost: int, m: nat, p: Point)
    requires TakenAt(s, start, maxCost, m) == None
    ensures After(s, start, maxCost, m + 1) == After(s, start, maxCost, m) && Offer(s, start, maxCost, m, p) == None
  {
  }

  // ---- The order ----

  /** Pixels are taken in the order in which they came into the queue: what waits is taken after as many turns as are in front. */
  lemma {:induction false} FirstComeFirstTaken(s: Surface, start: Point, maxCost: int, m: nat, i: nat)
    requires Inside(s, start) && !s.alpha(start) && i < |After(s, start, maxCost, m).open|
    ensures TakenAt(s, start, maxCost, m + i) == Some(After(s, start, maxCost, m).open[i])
    decreases i
  {
    hide After;
    if i > 0 {
      var st, t := After(s, start, maxCost, m), After(s, start, maxCost, m + 1);
      TurnIs(s, start, maxCost, m, start);
      assert t.open[i - 1] == st.open[1..][i - 1];
      FirstComeFirstTaken(s, start, maxCost, m + 1, i - 1);
      assert m + 1 + (i - 1) == m + i;
    }
  }

  /** What is reported is what was taken within the limit, in that order. */
  ghost function TakenWithin(s: Surface, start: Point, maxCost: int, n: nat): seq<Point> {
    if n == 0 then []
    else
      var st, c := After(s, start, maxCost, n - 1), TakenAt(s, start, maxCost, n - 1);
      TakenWithin(s, start, maxCost, n - 1)
        + (if c.Some? && c.value in st.nodes && st.nodes[c.value].g <= maxCost then [c.value] else [])
  }

  lemma {:induction false} ReportedAsTaken(s: Surface, start: Point, maxCost: int, n: nat)
    requires Inside(s, start) && !s.alpha(start)
    ensures After(s, start, maxCost, n).reachable == TakenWithin(s, start, maxCost, n)
  {
    hide After, TakenAt;
    if n == 0 {
      NothingReported(s, start, maxCost);
    } else {
      ReportedAsTaken(s, start, maxCost, n - 1);
      if TakenAt(s, start, maxCost, n - 1).Some? {
        TurnIs(s, start, maxCost, n - 1, start);
      } else {
        NothingTaken(s, start, maxCost, n - 1, start);
      }
    }
  }

  lemma NothingReported(s: Surface, start: Point, maxCost: int)
    ensures After(s, start, maxCost, 0).reachable == []
  {
  }
}
