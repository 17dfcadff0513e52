/**
 * The sweep. Which side of a half a point is on, where two halves meet, and how far apart points are, is
 * given from outside and may be anything; what is proved does not depend on it.
 */
module Voronoi {
  import opened Common
  import opened SweepTypes
  import opened SweepModel
  import opened SweepRep
  import EQ = EventQueue
  import BL = BeachLine

  datatype Which = SiteFirst | VertexFirst | Nothing

  class VoronoiDiagramGenerator {
    const sites: seq<Site>
    const geometry: Geometry
    const beach: BL.BeachLine
    const queue: EQ.EventQueue
    var siteidx: nat
    var bottomsite: Site
    var nedges: nat
    var records: map<nat, EdgeRec>
    var efl: set<nat>            // the free list of edges
    var epool: nat               // how many edge records have been allocated so far
    ghost var home: map<nat, nat>
    ghost var infos: seq<EdgeInfo>
    ghost var clipped: seq<nat>
    ghost var halves: seq<Half>
    ghost var due: map<Half, Event>
    ghost var model: Sweep

    /** The beach line and the edge records stand for halves and infos. */
    ghost predicate LineOk()
      reads this`records, this`efl, this`epool, this`nedges, this`home, this`infos, this`clipped, this`halves
      reads beach, beach.ELhash
    {
      && beach.Valid()
      && nedges == |infos| && EdgePool(records, efl, epool, home, infos, clipped)
      && LineRep(beach.line, beach.ELedge, beach.ELpm, home, halves)
    }

    ghost predicate Consistent()
      reads this, beach, beach.ELhash, queue
    {
      && LineOk() && queue.Valid()
      && QueueRep(beach.line, queue.Members(), queue.event, halves, due)
      && Distinct(halves)
    }

    /** Between two events the data structures stand for a state that the model can reach. */
    ghost predicate Valid()
      reads this, beach, beach.ELhash, queue
    {
      && Consistent()
      && model == Sweep(bottomsite, halves, infos, due.Keys) && Inv(model)
      && forall n :: n in home ==> n < |infos| && !infos[n].Done()
    }

    /** The table sizes follow from the root of the number of sites, the strips from the extent of the sites. */
    constructor (sites: seq<Site>, sqrtNsites: nat, xmin: real, deltax: real, ymin: real, deltay: real,
                 geometry: Geometry)
      requires |sites| > 0 && sqrtNsites > 0 && deltax > 0.0 && deltay > 0.0
      ensures Valid() && this.sites == sites && siteidx == 1 && model == Start(sites[0])
      ensures this.geometry == geometry
      ensures fresh(beach) && fresh(beach.ELhash) && fresh(queue)
    {
      hide BL.BeachLine.Valid, EQ.EventQueue.Valid, Inv, LineRep, QueueRep, EdgePool, EQ.EventQueue.Members;
      this.sites, this.geometry := sites, geometry;
      queue := new EQ.EventQueue(sqrtNsites, ymin, deltay);
      bottomsite := sites[0];
      beach := new BL.BeachLine(sqrtNsites, xmin, deltax);
      siteidx, nedges, records, efl, epool := 1, 0, map[], {}, 0;
      home, infos, clipped, halves, due := map[], [], [], [], map[];
      model := Start(sites[0]);
      new;
      StartInv(sites[0]);
      EmptyReps(beach.line, beach.ELedge, beach.ELpm, queue.event);
    }

    // ---- Edges ----

    /** The record of a new edge between s1 and s2. */
    method Bisect(s1: Site, s2: Site) returns (e: nat)
      requires Consistent()
      modifies this`records, this`efl, this`epool, this`nedges, this`home, this`infos, this`clipped
      ensures Consistent()
      ensures var n := |old(infos)|;
        infos == old(infos) + [EdgeInfo(s1, s2, None, None, 0)] && home == old(home)[n := e] && clipped == old(clipped) + [0]
    {
      hide BL.BeachLine.Valid, EQ.EventQueue.Valid, QueueRep, LineRep, EdgePool;
      if efl == {} {
        e := epool;
        epool := epool + 1;
      } else {
        e :| e in efl;
        efl := efl - {e};
      }
      PoolTake(records, old(efl), old(epool), home, infos, clipped, e, efl, epool, s1, s2);
      NewEdgeNotHome(records, old(efl), old(epool), home, infos, clipped);
      LineRepElsewhere(beach.line, beach.ELedge, beach.ELpm, home, halves, beach.ELedge, beach.ELpm, home[|infos| := e]);
      records := records[e := EdgeRec(s1, s2, None, None, nedges)];
      home := home[|infos| := e];
      infos := infos + [EdgeInfo(s1, s2, None, None, 0)];
      clipped := clipped + [0];
      nedges := nedges + 1;
    }

    /** `endpoint(e, lr, s)`, which only notes the vertex. */
    method Endpoint(e: nat, lr: Side, v: Point, ghost n: nat)
      requires EdgePool(records, efl, epool, home, infos, clipped) && n in home && home[n] == e && nedges == |infos|
      modifies this`records, this`infos
      ensures EdgePool(records, efl, epool, home, infos, clipped) && nedges == |infos|
      ensures n < |old(infos)| && infos == old(infos)[n := old(infos)[n].WithEp(lr, v)]
    {
      PoolEnd(records, efl, epool, home, infos, clipped, n, lr, v);
      if lr.Le? {
        records := records[e := records[e].(ep0 := Some(v))];
      } else {
        records := records[e := records[e].(ep1 := Some(v))];
      }
      infos := infos[n := infos[n].WithEp(lr, v)];
    }

    /** Clips the edge; the arithmetic is not part of this model, that it happens is. */
    method ClipLine(e: nat, ghost n: nat)
      requires n < |clipped| && n in home && home[n] == e
      modifies this`clipped
      ensures clipped == old(clipped)[n := old(clipped)[n] + 1]
    {
      clipped := clipped[n := clipped[n] + 1];
    }

    /** An edge with both ends is clipped and given back. */
    method FreeIfDone(e: nat, ghost n: nat)
      requires Consistent() && n in home && home[n] == e && n < |infos|
      requires infos[n].Done() ==> forall h :: h in halves ==> h.edge != n
      modifies this`efl, this`home, this`infos, this`clipped
      ensures Consistent()
      ensures infos == old(infos)[n := old(infos)[n].Finished()]
      ensures home == if old(infos)[n].Done() then old(home) - {n} else old(home)
      ensures efl == if old(infos)[n].Done() then old(efl) + {e} else old(efl)
    {
      hide BL.BeachLine.Valid, EQ.EventQueue.Valid, QueueRep, LineRep;
      assert records[e] == RecordOf(infos[n], n);
      if records[e].ep0.Some? && records[e].ep1.Some? {
        PoolFree(records, efl, epool, home, infos, clipped, n);
        LineRepElsewhere(beach.line, beach.ELedge, beach.ELpm, home, halves, beach.ELedge, beach.ELpm, home - {n});
        ClipLine(e, n);
        efl := efl + {e};
        home := home - {n};
      }
      infos := infos[n := infos[n].Finished()];
    }

    // ---- Halves ----

    /** `leftreg`: the site whose region is to the left of he, the node at i. */
    method LeftRegion(he: Ptr, ghost i: nat) returns (r: Site)
      requires LineOk() && i < |beach.line| && beach.line[i] == he
      ensures i == 0 || i == |halves| + 1 ==> r == bottomsite
      ensures 0 < i <= |halves| ==>
        var h := halves[i - 1]; h.edge < |infos| && r == infos[h.edge].Reg(h.side)
    {
      NodeFacts(i);
      if beach.ELedge[he] == NoEdge {
        return bottomsite;
      }
      var e := records[beach.ELedge[he].edge];
      r := if beach.ELpm[he] == Le then e.reg0 else e.reg1;
    }

    /** `rightreg`: the site whose region is to the right of he, the node at i. */
    method RightRegion(he: Ptr, ghost i: nat) returns (r: Site)
      requires LineOk() && i < |beach.line| && beach.line[i] == he
      ensures i == 0 || i == |halves| + 1 ==> r == bottomsite
      ensures 0 < i <= |halves| ==>
        var h := halves[i - 1]; h.edge < |infos| && r == infos[h.edge].Reg(h.side.Other())
    {
      NodeFacts(i);
      if beach.ELedge[he] == NoEdge {
        return bottomsite;
      }
      var e := records[beach.ELedge[he].edge];
      r := if beach.ELpm[he] == Le then e.reg1 else e.reg0;
    }

    /** What the fields of the node at i say. */
    lemma NodeFacts(i: nat)
      requires LineOk() && i < |beach.line|
      ensures |beach.line| == |halves| + 2 && beach.line[i] in beach.ELedge && beach.line[i] in beach.ELpm
      ensures beach.ELedge[beach.line[i]] == NoEdge <==> i == 0 || i == |halves| + 1
      ensures 0 < i <= |halves| ==>
        var h := halves[i - 1]; var e := beach.ELedge[beach.line[i]];
        && h.edge in home && h.edge < |infos| && e == Of(home[h.edge]) && beach.ELpm[beach.line[i]] == h.side
        && home[h.edge] in records && records[home[h.edge]] == RecordOf(infos[h.edge], h.edge)
    {
      if 0 < i <= |halves| {
        assert IsHalf(beach.ELedge, beach.ELpm, home, beach.line[i], halves[i - 1]);
      }
    }

    /** `intersect`: never for the ends of the line, nor for two edges of the same second site. */
    method Intersect(el1: Ptr, el2: Ptr, ghost i: nat) returns (v: Option<Point>)
      requires Consistent() && Known(infos, halves) && i + 1 < |beach.line| && beach.line[i] == el1 && beach.line[i + 1] == el2
      ensures v == MeetingAt(geometry, infos, halves, i)
    {
      NodeFacts(i);
      NodeFacts(i + 1);
      var e1, e2 := beach.ELedge[el1], beach.ELedge[el2];
      if e1 == NoEdge || e2 == NoEdge {
        return None;
      }
      var r1, r2 := records[e1.edge], records[e2.edge];
      if r1.reg1 == r2.reg1 {
        return None;
      }
      v := geometry.meet(r1.edgenbr, beach.ELpm[el1], r2.edgenbr, beach.ELpm[el2]);
    }

    /** A new half of edge n, whose record is e, put into the line behind lb, the node at k. */
    method AddHalf(lb: Ptr, e: nat, pm: Side, ghost n: nat, ghost k: nat) returns (he: Ptr)
      requires Consistent() && k <= |halves| && beach.line[k] == lb
      requires n in home && home[n] == e && Half(n, pm) !in halves
      modifies beach, queue, this`halves
      ensures Consistent() && beach.line == Inserted(old(beach.line), k + 1, he)
      ensures halves == old(halves)[..k] + [Half(n, pm)] + old(halves)[k..]
    {
      hide BL.BeachLine.Valid, EQ.EventQueue.Valid, LineRep, QueueRep, EdgePool, EQ.EventQueue.Members, Distinct, Inserted;
      ghost var edge, pms := beach.ELedge, beach.ELpm;
      LineLength(beach.line, edge, pms, home, halves);
      he := beach.HEcreate(e, pm);
      LineRepElsewhere(beach.line, edge, pms, home, halves, beach.ELedge, beach.ELpm, home);
      NotQueued(beach.line, queue.Members(), queue.event, halves, due, he);
      MembersAreContents(queue);
      ghost var ev := queue.event;
      queue.Clear(he);
      QueueRepElsewhere(beach.line, queue.Members(), ev, halves, due, he, EventOfNothing());
      QueueRepInsert(beach.line, queue.Members(), queue.event, halves, due, k, he, Half(n, pm));
      LineRepInsert(beach.line, beach.ELedge, beach.ELpm, home, halves, k, he, Half(n, pm));
      DistinctInsert(halves, k, Half(n, pm));
      beach.ELinsert(lb, he, k);
      halves := halves[..k] + [Half(n, pm)] + halves[k..];
    }

    /** `PQdelete` and `PQinsert`: the half of he, the node at i, gets an event in place of any that it had. */
    method Reschedule(he: Ptr, v: Point, offset: real, ghost i: nat)
      requires Consistent() && 0 < i <= |halves| && beach.line[i] == he
      modifies queue, this`due
      ensures Consistent() && due == old(due)[halves[i - 1] := Event(Some(v), v.y + offset)]
    {
      hide BL.BeachLine.Valid, EQ.EventQueue.Valid, LineRep, QueueRep, EdgePool, EQ.EventQueue.Members, Distinct;
      QueueFacts(i);
      ghost var ev := queue.event;
      QueueRepDrop(beach.line, queue.Members(), ev, halves, due, i - 1, ev[he].(vertex := None));
      due := due - {halves[i - 1]};
      ghost var place := queue.PQdelete(he);
      assert queue.event == ev[he := ev[he].(vertex := None)];
      Schedule(he, v, offset, i);
      assert due == old(due)[halves[i - 1] := Event(Some(v), v.y + offset)];
    }

    /** `PQinsert` alone, for a half without an event. */
    method Schedule(he: Ptr, v: Point, offset: real, ghost i: nat)
      requires Consistent() && 0 < i <= |halves| && beach.line[i] == he && halves[i - 1] !in due
      modifies queue, this`due
      ensures Consistent() && due == old(due)[halves[i - 1] := Event(Some(v), v.y + offset)]
    {
      hide BL.BeachLine.Valid, EQ.EventQueue.Valid, LineRep, QueueRep, EdgePool, EQ.EventQueue.Members, Distinct;
      QueueFacts(i);
      QueueRepAdd(beach.line, queue.Members(), queue.event, halves, due, i - 1, Event(Some(v), v.y + offset));
      due := due[halves[i - 1] := Event(Some(v), v.y + offset)];
      ghost var place := queue.PQinsert(he, v, offset);
    }

    /** The node at i is in the queue if and only if its half has an event. */
    lemma QueueFacts(i: nat)
      requires Consistent() && 0 < i <= |halves|
      ensures i < |beach.line|
      ensures var he := beach.line[i];
        && he.Node? && he in queue.event && Distinct(beach.line)
        && (he in queue.Contents() <==> halves[i - 1] in due)
        && (queue.event[he].vertex.Some? <==> halves[i - 1] in due)
        && (halves[i - 1] in due ==> due[halves[i - 1]] == queue.event[he])
    {
      assert EventAt(queue.Members(), queue.event, due, beach.line[i], halves[i - 1]);
      MembersAreContents(queue);
    }

    // ---- What is due ----

    /** Each half that is due has a node in the queue, for the same event. */
    lemma DueIsQueued(h: Half) returns (p: Ptr)
      requires Consistent() && h in due
      ensures p in queue.Contents() && p in queue.event && due[h] == queue.event[p]
    {
      hide LineOk, EQ.EventQueue.Valid;
      OnlyHalvesQueued();
      Lengths();
      var i :| 0 <= i < |halves| && halves[i] == h;
      p := beach.line[i + 1];
      QueueFacts(i + 1);
    }

    /** The half at k has the first event of the queue, at the vertex v. */
    ghost predicate FirstAt(k: nat, v: Point)
      reads this`halves, beach`line, queue`buckets, queue`event
    {
      && k < |halves| && k + 1 < |beach.line|
      && queue.Contents() != [] && queue.Contents()[0] == beach.line[k + 1]
      && beach.line[k + 1] in queue.event && queue.event[beach.line[k + 1]].vertex == Some(v)
    }

    /** What PQ_min has found: the key of the first event, which none comes before. */
    ghost predicate LeastKey(p: Point)
      reads queue`buckets, queue`event
    {
      && queue.Contents() != [] && EQ.Due(queue.event, queue.Contents()[0])
      && p == Point(queue.event[queue.Contents()[0]].vertex.value.x, queue.event[queue.Contents()[0]].ystar)
      && forall h :: h in queue.Contents() ==>
           EQ.Due(queue.event, h) && !EQ.Before(queue.event, h, queue.Contents()[0])
    }

    lemma LeastIsFirst(p: Point)
      requires Consistent() && LeastKey(p)
      ensures NoneBefore(due, p) && due != map[]
    {
      hide LineOk, EQ.EventQueue.Valid, QueueRep;
      forall h | h in due
        ensures due[h].vertex.Some? && !(due[h].ystar < p.y || (due[h].ystar == p.y && due[h].vertex.value.x < p.x))
      {
        var q := DueIsQueued(h);
      }
      FirstIsQueued();
    }

    lemma FirstIsDue(k: nat, v: Point, p: Point)
      requires Consistent() && LeastKey(p) && FirstAt(k, v)
      ensures DueAt(halves, due, k, v, p)
    {
      hide LineOk, EQ.EventQueue.Valid, QueueRep;
      Lengths();
      QueueFacts(k + 1);
    }

    lemma FirstIsQueued()
      requires Consistent() && queue.Contents() != []
      ensures due != map[]
    {
      hide EQ.EventQueue.Valid, LineRep, EdgePool;
      var p := queue.Contents()[0];
      assert p in queue.Members();
      var i :| 0 <= i < |beach.line| && beach.line[i] == p;
      assert EventAt(queue.Members(), queue.event, due, beach.line[i], halves[i - 1]);
    }

    lemma NothingDue()
      requires Consistent() && queue.PQempty()
      ensures due == map[]
    {
      hide LineOk;
      if h :| h in due {
        var p := DueIsQueued(h);
      }
    }

    // ---- The two kinds of events ----

    /** A new site: its region splits another one, between two halves of one new edge. */
    method SiteEvent(newsite: Site) returns (ghost step: Step)
      requires Valid()
      modifies this`records, this`efl, this`epool, this`nedges, this`home, this`infos, this`clipped, this`halves, this`due,
               this`model, beach, beach.ELhash, queue
      ensures step.AtSite? && step.site == newsite && Possible(old(model), step) && Inv(old(model))
      ensures Valid() && model == After(old(model), step)
      ensures Answers(geometry, old(model), step) && due == NextDue(geometry, old(model), old(due), step)
    {
      hide BL.BeachLine.Valid, EQ.EventQueue.Valid, LineRep, QueueRep, EdgePool, EQ.EventQueue.Members, Distinct,
           Inv, After, Possible, Answers, NextDue, Inserted, BL.IsBoundary, Scheduled, MeetingAt;
      ghost var s := model;
      var lbnd;
      ghost var k;
      lbnd, k := FindLeft(newsite.coord);
      Lengths();
      InvFacts(s);
      var bot := RightRegion(lbnd, k);
      var l, r := SplitRegion(lbnd, bot, newsite, k);
      step := AtSite(k, newsite, l, r);
      SplitAsSaid(geometry, s, old(due), k, newsite, l, r, halves, infos, due);
      model := After(s, step);
      StepInv(s, step);
    }

    /** The two halves of the new edge, and the events they give rise to. */
    method SplitRegion(lb: Ptr, bot: Site, newsite: Site, ghost k: nat) returns (l: bool, r: bool)
      requires Consistent() && k <= |halves| && beach.line[k] == lb
      requires forall h :: h in halves ==> h.edge < |infos|
      modifies this`records, this`efl, this`epool, this`nedges, this`home, this`infos, this`clipped, this`halves, this`due,
               beach, queue
      ensures Consistent()
      ensures infos == old(infos) + [EdgeInfo(bot, newsite, None, None, 0)]
      ensures home.Keys == old(home).Keys + {|old(infos)|}
      ensures var n := |old(infos)|; var one := old(halves)[..k] + [Half(n, Le)] + old(halves)[k..];
        halves == one[..k + 1] + [Half(n, Re)] + one[k + 1..]
      ensures Known(infos, halves)
      ensures (l <==> MeetingAt(geometry, infos, halves, k).Some?) && (r <==> MeetingAt(geometry, infos, halves, k + 2).Some?)
      ensures due == Scheduled(geometry, infos, halves, Scheduled(geometry, infos, halves, old(due), k, newsite), k + 2, newsite)
    {
      hide Consistent, Inserted, Scheduled, MeetingAt;
      Lengths();
      OnlyHalvesQueued();
      ghost var n, was := |infos|, due;
      var rbnd := Neighbour(lb, k);
      var e := Bisect(bot, newsite);
      var bisector;
      bisector, l := AddLeftHalf(lb, rbnd, e, newsite, n, k);
      OnlyHalvesQueued();
      ghost var one := halves;
      r := AddRightHalf(bisector, rbnd, e, newsite, n, k + 1);
      SamePair(geometry, infos, one, halves, was, k, newsite);
    }

    method AddLeftHalf(lb: Ptr, rb: Ptr, e: nat, newsite: Site, ghost n: nat, ghost k: nat) returns (bisector: Ptr, l: bool)
      requires Consistent() && k <= |halves| && k + 1 < |beach.line| && beach.line[k] == lb && beach.line[k + 1] == rb
      requires n in home && home[n] == e && Half(n, Le) !in halves && n < |infos| && Known(infos, halves)
      modifies this`halves, this`due, beach, queue
      ensures Consistent() && Known(infos, halves)
      ensures halves == old(halves)[..k] + [Half(n, Le)] + old(halves)[k..]
      ensures l <==> MeetingAt(geometry, infos, halves, k).Some?
      ensures due == Scheduled(geometry, infos, halves, old(due), k, newsite)
      ensures k + 2 < |beach.line| && beach.line[k + 1] == bisector && beach.line[k + 2] == rb
    {
      hide Consistent, Inserted;
      Lengths();
      ghost var line := beach.line;
      bisector := AddHalf(lb, e, Le, n, k);
      InsertedAt(line, k, bisector);
      var p := Intersect(lb, bisector, k);
      l := p.Some?;
      if p.Some? {
        Reschedule(lb, p.value, geometry.dist(p.value, newsite.coord), k);
      }
    }

    method AddRightHalf(lb: Ptr, rb: Ptr, e: nat, newsite: Site, ghost n: nat, ghost k: nat) returns (r: bool)
      requires Consistent() && k <= |halves| && k + 1 < |beach.line| && beach.line[k] == lb && beach.line[k + 1] == rb
      requires n in home && home[n] == e && Half(n, Re) !in halves && Half(n, Re) !in due && n < |infos| && Known(infos, halves)
      modifies this`halves, this`due, beach, queue
      ensures Consistent() && Known(infos, halves)
      ensures halves == old(halves)[..k] + [Half(n, Re)] + old(halves)[k..]
      ensures r <==> MeetingAt(geometry, infos, halves, k + 1).Some?
      ensures due == Scheduled(geometry, infos, halves, old(due), k + 1, newsite)
    {
      hide Consistent, Inserted;
      Lengths();
      ghost var line := beach.line;
      var bisector := AddHalf(lb, e, Re, n, k);
      InsertedAt(line, k, bisector);
      var p := Intersect(bisector, rb, k + 1);
      r := p.Some?;
      if p.Some? {
        Schedule(bisector, p.value, geometry.dist(p.value, newsite.coord), k + 1);
      }
    }

    lemma OnlyHalvesQueued()
      requires Consistent()
      ensures forall h :: h in due ==> h in halves
    {
      OnlyInHalves(beach.line, queue.Members(), queue.event, halves, due);
    }

    lemma Lengths()
      requires Consistent()
      ensures |beach.line| == |halves| + 2
    {
    }

    /** A vertex: the region between the first half of the queue and its right neighbour vanishes. */
    method CircleEvent() returns (ghost step: Step)
      requires Valid() && queue.PQmin < queue.PQhashsize && queue.buckets[queue.PQmin] != []
      modifies this`records, this`efl, this`epool, this`nedges, this`home, this`infos, this`clipped, this`halves, this`due,
               this`model, beach, queue
      ensures step.AtVertex? && Possible(old(model), step) && Inv(old(model)) && old(FirstAt(step.k, step.v))
      ensures Valid() && model == After(old(model), step)
      ensures Answers(geometry, old(model), step) && due == NextDue(geometry, old(model), old(due), step)
    {
      hide BL.BeachLine.Valid, EQ.EventQueue.Valid, LineRep, QueueRep, EdgePool, EQ.EventQueue.Members, Distinct,
           Inv, After, Possible, Answers, NextDue, Scheduled, MeetingAt;
      ghost var s := model;
      InvFacts(s);
      var llbnd, rrbnd, bot, top, v, e2, e3;
      ghost var k;
      llbnd, rrbnd, bot, top, v, e2, e3, k := RetirePair();
      var l, r := JoinRegions(llbnd, rrbnd, bot, top, v, e2, e3, k, s.line[k].edge, s.line[k + 1].edge);
      step := AtVertex(k, v, l, r);
      JoinedAsSaid(geometry, s, old(due), k, v, l, r, halves, infos, due);
      model := After(s, step);
      StepInv(s, step);
      OnlyOpenAtHome(s, k, v, old(home).Keys, home.Keys, infos);
    }

    /** The edge between the regions that now meet, one half of it, and what becomes of the edges that ended. */
    method JoinRegions(llbnd: Ptr, rrbnd: Ptr, left: Site, right: Site, v: Point, e2: nat, e3: nat,
                       ghost k: nat, ghost n2: nat, ghost n3: nat) returns (l: bool, r: bool)
      requires Consistent() && OpenHalves() && k <= |halves| && k + 1 < |beach.line|
      requires beach.line[k] == llbnd && beach.line[k + 1] == rrbnd
      requires n2 in home && home[n2] == e2 && n3 in home && home[n3] == e3 && n2 != n3 && n2 < |infos| && n3 < |infos|
      modifies this`records, this`efl, this`epool, this`nedges, this`home, this`infos, this`clipped, this`halves, this`due,
               beach, queue
      ensures Consistent()
      ensures var n := |old(infos)|; var (e, pm) := JoiningEdge(left, right, v);
        && halves == old(halves)[..k] + [Half(n, pm)] + old(halves)[k..]
        && infos == Finish(old(infos), n2, n3) + [e]
      ensures Known(infos, halves)
      ensures (l <==> MeetingAt(geometry, infos, halves, k).Some?) && (r <==> MeetingAt(geometry, infos, halves, k + 1).Some?)
      ensures var site := JoiningEdge(left, right, v).0.reg0;
        due == Scheduled(geometry, infos, halves, Scheduled(geometry, infos, halves, old(due), k, site), k + 1, site)
      ensures home.Keys == Open(old(home).Keys, old(infos), n2, n3) + {|old(infos)|}
    {
      hide Consistent, Inserted, Scheduled, MeetingAt, Finish;
      Lengths();
      OnlyHalvesQueued();
      HalvesInRange();
      ghost var n, line := |infos|, beach.line;
      var bot, top, pm := left, right, Le;
      if bot.coord.y > top.coord.y {
        bot, top := top, bot;
        pm := Re;
      }
      var e := Bisect(bot, top);
      var bisector := AddHalf(llbnd, e, pm, n, k);
      InsertedAt(line, k, bisector);
      EndpointOfThree(e, pm.Other(), v, e2, e3, n, n2, n3);
      FinishBefore(old(infos), EdgeInfo(bot, top, None, None, 0), pm.Other(), v, n2, n3);
      l, r := JoinEvents(llbnd, bisector, rrbnd, bot, k);
    }

    method JoinEvents(llbnd: Ptr, bisector: Ptr, rrbnd: Ptr, bot: Site, ghost k: nat) returns (l: bool, r: bool)
      requires Consistent() && k + 1 <= |halves| && k + 2 < |beach.line| && halves[k] !in due && Known(infos, halves)
      requires beach.line[k] == llbnd && beach.line[k + 1] == bisector && beach.line[k + 2] == rrbnd
      modifies this`due, queue
      ensures Consistent()
      ensures (l <==> MeetingAt(geometry, infos, halves, k).Some?) && (r <==> MeetingAt(geometry, infos, halves, k + 1).Some?)
      ensures due == Scheduled(geometry, infos, halves, Scheduled(geometry, infos, halves, old(due), k, bot), k + 1, bot)
    {
      hide Consistent;
      HalvesDiffer();
      var p := Intersect(llbnd, bisector, k);
      l := p.Some?;
      if p.Some? {
        Reschedule(llbnd, p.value, geometry.dist(p.value, bot.coord), k);
      }
      p := Intersect(bisector, rrbnd, k + 1);
      r := p.Some?;
      if p.Some? {
        Schedule(bisector, p.value, geometry.dist(p.value, bot.coord), k + 1);
      }
    }

    lemma HalvesDiffer()
      requires Consistent()
      ensures Distinct(halves)
    {
    }

    /** Every half in the line lacks its vertex. */
    ghost predicate OpenHalves()
      reads this`halves, this`infos
    {
      forall h :: h in halves ==> h.edge < |infos| && infos[h.edge].Ep(h.side) == None
    }

    lemma HalvesInRange()
      requires Consistent() && OpenHalves()
      ensures forall h :: h in halves ==> h.edge < |infos|
    {
    }

    /** `endpoint(e1, lr, s, e2, e3)`: the vertex at the new edge, then each of the three edges freed if it is done. */
    method EndpointOfThree(e1: nat, lr: Side, v: Point, e2: nat, e3: nat, ghost n1: nat, ghost n2: nat, ghost n3: nat)
      requires Consistent()
      requires n1 in home && home[n1] == e1 && n2 in home && home[n2] == e2 && n3 in home && home[n3] == e3
      requires n1 < |infos| && n2 < |infos| && n3 < |infos| && n1 != n2 && n1 != n3 && n2 != n3
      requires infos[n1].ep0 == infos[n1].ep1 == None
      requires forall h :: h in halves ==> h.edge < |infos| && infos[h.edge].Ep(h.side) == None && (h.edge == n1 ==> h.side != lr)
      modifies this`records, this`efl, this`home, this`infos, this`clipped
      ensures Consistent()
      ensures var one := old(infos)[n1 := old(infos)[n1].WithEp(lr, v)]; infos == Finish(one, n2, n3)
      ensures home.Keys == Open(old(home).Keys, old(infos), n2, n3)
      ensures efl == old(efl) + (if old(infos)[n2].Done() then {e2} else {}) + (if old(infos)[n3].Done() then {e3} else {})
    {
      hide LineRep, QueueRep, EdgePool, BL.BeachLine.Valid, EQ.EventQueue.Valid, Distinct;
      Endpoint(e1, lr, v, n1);
      FreeIfDone(e1, n1);
      FreeIfDone(e2, n2);
      FreeIfDone(e3, n3);
    }

    /** Takes the first event, notes its vertex at both halves it ends, and takes both out of the line. */
    method RetirePair()
      returns (llbnd: Ptr, rrbnd: Ptr, bot: Site, top: Site, v: Point, e2: nat, e3: nat, ghost k: nat)
      requires Valid() && queue.PQmin < queue.PQhashsize && queue.buckets[queue.PQmin] != []
      modifies this`records, this`infos, this`halves, this`due, beach, queue
      ensures Consistent()
      ensures var s := old(model);
        && k + 1 < |s.line| && AllInRange(s) && s.line[k] in s.queued && s.line[k].edge != s.line[k + 1].edge
        && bot == LeftReg(s, s.line[k]) && top == RightReg(s, s.line[k + 1])
        && halves == s.line[..k] + s.line[k + 2..]
        && due == old(due) - {s.line[k], s.line[k + 1]}
        && infos == WithVertex(s, k, v) && OpenHalves() && home == old(home)
        && s.line[k].edge in home && e2 == home[s.line[k].edge] && s.line[k + 1].edge in home && e3 == home[s.line[k + 1].edge]
      ensures k < |beach.line| - 1 && beach.line[k] == llbnd && beach.line[k + 1] == rrbnd
      ensures old(FirstAt(k, v))
    {
      hide BL.BeachLine.Valid, EQ.EventQueue.Valid, LineRep, QueueRep, EdgePool, EQ.EventQueue.Members, Inv, Distinct,
           Without, Distinct;
      ghost var s := model;
      Lengths();
      InvFacts(s);
      k := FirstEvent();
      MembersAreContents(queue);
      var lbnd := queue.PQextractmin();
      var rbnd;
      llbnd, rbnd, rrbnd := Around(lbnd, k + 1);
      bot := LeftRegion(lbnd, k + 1);
      top := RightRegion(rbnd, k + 2);
      v := queue.event[lbnd].vertex.value;
      e2, e3 := NoteVertex(lbnd, rbnd, v, k);
      MembersWithFirst(old(queue.Members()), queue.Members(), lbnd);
      RemovePair(lbnd, rbnd, k);
      forall h | h in halves
        ensures h.edge < |infos| && infos[h.edge].Ep(h.side) == None
      {
        StillOpen(s, k, v, h);
      }
    }

    /** Both nodes of the event leave the line, and the right one the queue, which the left one has left. */
    method RemovePair(lbnd: Ptr, rbnd: Ptr, ghost k: nat)
      requires LineOk() && queue.Valid() && Distinct(halves) && k + 1 < |halves| && k + 3 < |beach.line|
      requires beach.line[k + 1] == lbnd && beach.line[k + 2] == rbnd && lbnd !in queue.Members()
      requires QueueRep(beach.line, queue.Members() + {lbnd}, queue.event, halves, due)
      modifies beach, queue, this`halves, this`due
      ensures Consistent() && halves == old(halves)[..k] + old(halves)[k + 2..]
      ensures due == old(due) - {old(halves)[k], old(halves)[k + 1]}
      ensures k + 1 < |beach.line| && beach.line[k] == old(beach.line[k]) && beach.line[k + 1] == old(beach.line[k + 3])
    {
      hide LineOk, EQ.EventQueue.Valid, QueueRep, Distinct, Without, EQ.EventQueue.Members;
      ghost var hs, line, members, ev := halves, beach.line, queue.Members() + {lbnd}, queue.event;
      EventFacts(line, members, ev, hs, due, k + 1);
      MembersAreContents(queue);
      NodesDiffer(k + 1, k + 2);
      DeleteHalf(lbnd, k);
      WithoutAt(line, k + 1);
      ghost var place := queue.PQdelete(rbnd);
      DeleteHalf(rbnd, k);
      WithoutAt(Without(line, k + 1), k + 1);
      QueueRepRetire(line, members, ev, hs, due, k, queue.event);
      RetiredTwice(hs, k);
      assert queue.Members() == members - {lbnd, rbnd};
      due := due - {hs[k], hs[k + 1]};
    }

    lemma NodesDiffer(i: nat, j: nat)
      requires LineOk() && i < j < |beach.line|
      ensures beach.line[i] != beach.line[j] && Distinct(beach.line)
    {
    }

    /** The vertex at the ends of the halves at k and k + 1. */
    method NoteVertex(lbnd: Ptr, rbnd: Ptr, v: Point, ghost k: nat) returns (e2: nat, e3: nat)
      requires LineOk() && k + 1 < |halves| && k + 2 < |beach.line| && beach.line[k + 1] == lbnd && beach.line[k + 2] == rbnd
      requires AllInRange(model) && model.line == halves && model.edges == infos
      modifies this`records, this`infos
      ensures LineOk() && infos == WithVertex(model, k, v)
      ensures halves[k].edge in home && e2 == home[halves[k].edge] && halves[k + 1].edge in home && e3 == home[halves[k + 1].edge]
    {
      hide BL.BeachLine.Valid, EdgePool, LineRep;
      NodeFacts(k + 1);
      NodeFacts(k + 2);
      e2 := beach.ELedge[lbnd].edge;
      e3 := beach.ELedge[rbnd].edge;
      Endpoint(e2, beach.ELpm[lbnd], v, halves[k].edge);
      Endpoint(e3, beach.ELpm[rbnd], v, halves[k + 1].edge);
    }

    /** The first event is that of a half in the line with a right neighbour on another edge. */
    lemma FirstEvent() returns (k: nat)
      requires Valid() && queue.PQmin < queue.PQhashsize && queue.buckets[queue.PQmin] != []
      ensures queue.Contents() != [] && EQ.Due(queue.event, queue.Contents()[0])
      ensures k + 1 < |halves| && beach.line[k + 1] == queue.Contents()[0]
      ensures halves[k] in due && halves[k].edge != halves[k + 1].edge
    {
      hide BL.BeachLine.Valid, EQ.AllBucketsOk, LineRep, EdgePool;
      Lengths();
      EQ.FirstIsFirst(queue.buckets, queue.PQmin);
      queue.ContentsSorted();
      var p := queue.Contents()[0];
      assert p in queue.Members();
      var i :| 0 <= i < |beach.line| && beach.line[i] == p;
      k := i - 1;
      assert EventAt(queue.Members(), queue.event, due, beach.line[k + 1], halves[k]);
      assert model.line[k] in model.queued;
    }

    /** The node at i, its left neighbour, and its two right neighbours. */
    method Around(he: Ptr, ghost i: nat) returns (l: Ptr, r: Ptr, rr: Ptr)
      requires LineOk() && 0 < i && i + 2 < |beach.line| && beach.line[i] == he
      ensures l == beach.line[i - 1] && r == beach.line[i + 1] && rr == beach.line[i + 2]
    {
      l := beach.ELleft[he];
      r := beach.ELright[he];
      assert r == beach.line[i + 1];
      rr := beach.ELright[r];
    }

    /** `ELdelete` of the node that stands for the half at k. */
    method DeleteHalf(he: Ptr, ghost k: nat)
      requires LineOk() && k < |halves| && k + 1 < |beach.line| && beach.line[k + 1] == he
      modifies beach, this`halves
      ensures LineOk() && beach.line == Without(old(beach.line), k + 1) && beach.ELpm == old(beach.ELpm)
      ensures halves == old(halves)[..k] + old(halves)[k + 1..]
    {
      hide EdgePool, BL.PoolOk, BL.HashOk, BL.Linked, BL.Ended;
      LineLength(beach.line, beach.ELedge, beach.ELpm, home, halves);
      LineRepRemove(beach.line, beach.ELedge, beach.ELedge[he := Deleted], beach.ELpm, home, halves, k);
      beach.ELdelete(he, k + 1);
      halves := halves[..k] + halves[k + 1..];
    }

    /** The node that ELleftbnd finds, with the answers of the oracle for the halves as they are now. */
    method FindLeft(p: Point) returns (lbnd: Ptr, ghost k: nat)
      requires Valid()
      modifies beach, beach.ELhash
      ensures Valid() && beach.line == old(beach.line) && beach.ELedge == old(beach.ELedge) && beach.ELpm == old(beach.ELpm)
      ensures k <= |halves| && beach.line[k] == lbnd
      ensures Between(geometry, halves, k, p)
    {
      var edges, pms, rec, oracle := beach.ELedge, beach.ELpm, records, geometry.rightOf;
      var isRight := (he: Ptr) => he in edges && he in pms && edges[he].Of? && edges[he].edge in rec
                                  && oracle(rec[edges[he].edge].edgenbr, pms[he], p);
      lbnd, k := beach.ELleftbnd(p, isRight);
    }

    /** The right neighbour of the node at k. */
    method Neighbour(he: Ptr, ghost k: nat) returns (r: Ptr)
      requires Consistent() && k + 1 < |beach.line| && beach.line[k] == he
      ensures r == beach.line[k + 1]
    {
      r := beach.ELright[he];
    }

    // ---- The sweep ----

    method NextOne() returns (s: Option<Site>)
      requires siteidx <= |sites|
      modifies this`siteidx
      ensures old(siteidx) < |sites| ==> siteidx == old(siteidx) + 1 && s == Some(sites[old(siteidx)])
      ensures old(siteidx) == |sites| ==> siteidx == old(siteidx) && s == None
    {
      if siteidx < |sites| {
        s := Some(sites[siteidx]);
        siteidx := siteidx + 1;
      } else {
        s := None;
      }
    }

    /**
     * Sweeps over all sites. Whatever the oracles answer, the sweep ends and is the one they decide: each step takes
     * the first event, at the time that where the halves met has given it. Every edge it makes is clipped: twice if
     * both its halves are left in the line in the end, and once if not.
     */
    method SweepOver() returns (ghost states: seq<Sweep>, ghost steps: seq<Step>, ghost dues: seq<map<Half, Event>>)
      requires Valid() && siteidx == 1 <= |sites| && model == Start(sites[0])
      modifies this, beach, beach.ELhash, queue
      ensures IsSweep(geometry, sites, states, steps, dues) && IsOver(sites, steps, dues) && SitesOf(steps) == sites[1..]
      ensures states[|steps|] == model && Inv(model) && IsRun(states, steps, sites[0])
      ensures |clipped| == |model.edges|
      ensures forall n :: 0 <= n < |clipped| ==> clipped[n] == FinalClips(model, n)
    {
      hide BL.BeachLine.Valid, EQ.EventQueue.Valid, LineRep, QueueRep, EdgePool, EQ.EventQueue.Members, Distinct, Inv, After,
           Possible, IsStep, IsSweep, IsRun;
      states, steps, dues := [model], [], [due];
      NoSteps(geometry, sites, due);
      var newsite := NextOne();
      while true
        invariant Valid() && siteidx <= |sites|
        invariant IsSweep(geometry, sites, states, steps, dues)
        invariant |states| == |dues| == |steps| + 1 && states[|steps|] == model && dues[|steps|] == due
        invariant newsite == None ==> siteidx == |sites|
        invariant newsite == NextSite(sites, steps)
        invariant SitesIn(steps) == siteidx - 1 - (if newsite == None then 0 else 1)
        decreases 3 * (|sites| - siteidx + (if newsite == None then 0 else 1)) + |halves|
      {
        ghost var s, was := model, due;
        var which;
        ghost var step;
        which, step := NextEvent(newsite);
        if which == Nothing {
          break;
        }
        if which == SiteFirst {
          newsite := NextOne();
        }
        StepOf(geometry, NextSite(sites, steps), s, was, step, model, due);
        LongerSweep(geometry, sites, states, steps, dues, step, model, due);
        states, steps, dues := states + [model], steps + [step], dues + [due];
      }
      SitesInOrder(geometry, sites, states, steps, dues);
      SweepIsRun(geometry, sites, states, steps, dues);
      ClipTheRest();
    }

    /**
     * Takes the next site if it comes before every vertex, or else the first vertex, or else nothing is left.
     */
    method NextEvent(newsite: Option<Site>) returns (which: Which, ghost step: Step)
      requires Valid()
      modifies this`records, this`efl, this`epool, this`nedges, this`home, this`infos, this`clipped, this`halves, this`due,
               this`model, beach, beach.ELhash, queue
      ensures Valid()
      ensures which == Nothing ==> newsite == None && model == old(model) && due == old(due) == map[]
      ensures which != Nothing ==> IsStep(geometry, newsite, old(model), old(due), step, model, due)
      ensures which == SiteFirst <==> which != Nothing && step.AtSite?
    {
      hide BL.BeachLine.Valid, EQ.EventQueue.Valid, LineRep, QueueRep, EdgePool, EQ.EventQueue.Members, Distinct, Inv, After,
           Possible, TakesFirst, DueAt, Answers, NextDue;
      var newintstar := Point(0.0, 0.0);
      ghost var s, was := model, due;
      if !queue.PQempty() {
        newintstar := queue.PQ_min();
        LeastIsFirst(newintstar);
        forall k: nat, v: Point | FirstAt(k, v)
          ensures DueAt(s.line, was, k, v, newintstar)
        {
          FirstIsDue(k, v, newintstar);
        }
      } else {
        NothingDue();
      }
      which, step := Nothing, AtVertex(0, newintstar, false, false);
      if newsite.Some? && (queue.PQempty() || newsite.value.coord.y < newintstar.y
          || (newsite.value.coord.y == newintstar.y && newsite.value.coord.x < newintstar.x)) {
        which := SiteFirst;
        step := SiteEvent(newsite.value);
        TakesSite(s, was, newsite.value, newintstar, step);
      } else if !queue.PQempty() {
        which := VertexFirst;
        step := CircleEvent();
        TakesVertex(s, was, newsite, newintstar, step);
      }
    }

    /** The final loop over the beach line. */
    method ClipTheRest()
      requires Valid()
      modifies this`clipped
      ensures |clipped| == |model.edges|
      ensures forall n :: 0 <= n < |clipped| ==> clipped[n] == FinalClips(model, n)
    {
      hide Consistent, Inv, BL.BeachLine.Valid, Distinct, CountOf, FinalClips;
      Lengths();
      ClipFacts();
      LineFacts(0);
      EdgeFacts();
      var lbnd := beach.ELright[beach.ELleftend];
      ghost var i: nat := 0;
      while lbnd != beach.ELrightend
        invariant i <= |halves| && lbnd == beach.line[i + 1]
        invariant |clipped| == |infos|
        invariant forall n :: 0 <= n < |infos| ==> clipped[n] == infos[n].clips + CountOf(halves[..i], n)
        decreases |halves| - i
      {
        LineFacts(i + 1);
        assert halves[i].edge in home;
        CountOfNext(halves, i);
        ClipLine(beach.ELedge[lbnd].edge, halves[i].edge);
        lbnd, i := beach.ELright[lbnd], i + 1;
      }
      LineFacts(i + 1);
      AllClipped();
    }

    /** So far each edge has been clipped as often as the model says. */
    lemma ClipFacts()
      requires Consistent()
      ensures beach.Valid() && |clipped| == |infos|
      ensures forall n :: 0 <= n < |infos| ==> clipped[n] == infos[n].clips + CountOf(halves[..0], n)
    {
    }

    lemma AllClipped()
      requires Inv(model) && model.line == halves && model.edges == infos && |clipped| == |infos|
      requires forall n :: 0 <= n < |infos| ==> clipped[n] == infos[n].clips + CountOf(halves[..|halves|], n)
      ensures forall n :: 0 <= n < |clipped| ==> clipped[n] == FinalClips(model, n)
    {
      hide ArcChain, EndsOpen, EventsOk, ClippedWhenDone;
      assert halves[..|halves|] == halves;
      forall n | 0 <= n < |clipped|
        ensures clipped[n] == FinalClips(model, n)
      {
        CountOfDistinct(halves, n);
      }
    }

    lemma EdgeFacts()
      requires Consistent()
      ensures forall i :: 0 <= i < |halves| ==>
        && beach.line[i + 1] in beach.ELedge && beach.ELedge[beach.line[i + 1]].Of?
        && halves[i].edge in home && halves[i].edge < |infos| && home[halves[i].edge] == beach.ELedge[beach.line[i + 1]].edge
    {
      forall i | 0 <= i < |halves|
        ensures beach.line[i + 1] in beach.ELedge && beach.ELedge[beach.line[i + 1]].Of?
        ensures halves[i].edge in home && halves[i].edge < |infos| && home[halves[i].edge] == beach.ELedge[beach.line[i + 1]].edge
      {
        NodeFacts(i + 1);
      }
    }

    /** The links and ends of the line around the node at i. */
    lemma LineFacts(i: nat)
      requires beach.Valid() && i < |beach.line|
      ensures beach.line[0] == beach.ELleftend && Distinct(beach.line)
      ensures i + 1 < |beach.line| ==> beach.line[i] in beach.ELright && beach.ELright[beach.line[i]] == beach.line[i + 1]
      ensures beach.line[i] == beach.ELrightend <==> i == |beach.line| - 1
    {
    }
  }

  lemma NoSteps(g: Geometry, sites: seq<Site>, due: map<Half, Event>)
    requires sites != [] && due.Keys == Start(sites[0]).queued
    ensures due == map[] && IsSweep(g, sites, [Start(sites[0])], [], [due])
  {
  }

  /** Every step brings the sweep nearer to its end. */
  lemma StepOf(g: Geometry, next: Option<Site>, s: Sweep, due: map<Half, Event>, e: Step, t: Sweep, due': map<Half, Event>)
    requires IsStep(g, next, s, due, e, t, due')
    ensures |t.line| == if e.AtSite? then |s.line| + 2 else |s.line| - 1
    ensures e.AtSite? ==> next == Some(e.site)
  {
    hide After, Possible, Inv, Answers, NextDue;
    StepInv(s, e);
  }

  lemma CountOfNext(halves: seq<Half>, i: nat)
    requires i < |halves|
    ensures forall n :: CountOf(halves[..i + 1], n) == CountOf(halves[..i], n) + One(halves[i].edge == n)
  {
    assert halves[..i + 1][..i] == halves[..i];
  }

  lemma OnlyInHalves(line: seq<Ptr>, members: set<Ptr>, ev: EQ.Events, halves: seq<Half>, due: map<Half, Event>)
    requires QueueRep(line, members, ev, halves, due)
    ensures forall h :: h in due ==> h in halves
  {
  }

  lemma InvFacts(s: Sweep)
    requires Inv(s)
    ensures AllInRange(s) && Distinct(s.line)
    ensures forall h :: h in s.line ==> h.edge < |s.edges|
  {
  }

  lemma InsertedAt(line: seq<Ptr>, k: nat, p: Ptr)
    requires k + 1 < |line|
    ensures var t := Inserted(line, k + 1, p);
      && t[k] == line[k] && t[k + 1] == p && t[k + 2] == line[k + 1]
      && (k + 2 < |line| ==> t[k + 3] == line[k + 2]) && (k > 0 ==> t[k - 1] == line[k - 1])
  {
  }

  /** A half put in behind k leaves the pair in front of it as it was. */
  lemma SamePair(g: Geometry, edges: seq<EdgeInfo>, one: seq<Half>, halves: seq<Half>, due: map<Half, Event>, k: nat, site: Site)
    requires k < |one| && Known(edges, one) && Known(edges, halves)
    requires |halves| > |one| && halves[..k + 1] == one[..k + 1]
    ensures MeetingAt(g, edges, halves, k) == MeetingAt(g, edges, one, k)
    ensures Scheduled(g, edges, halves, due, k, site) == Scheduled(g, edges, one, due, k, site)
  {
    assert halves[k] == one[..k + 1][k] && (k > 0 ==> halves[k - 1] == one[..k + 1][k - 1]);
  }

  /** Which halves have an event once two new ones have been put in. */
  lemma SplitKeys(g: Geometry, edges: seq<EdgeInfo>, line: seq<Half>, halves: seq<Half>, due: map<Half, Event>,
                  k: nat, site: Site)
    requires Known(edges, halves) && k <= |line| && edges != []
    requires var n := |edges| - 1; var one := line[..k] + [Half(n, Le)] + line[k..];
      halves == one[..k + 1] + [Half(n, Re)] + one[k + 1..]
    ensures var l, r := MeetingAt(g, edges, halves, k).Some?, MeetingAt(g, edges, halves, k + 2).Some?;
      && (l ==> k > 0) && (r ==> k < |line|)
      && Scheduled(g, edges, halves, Scheduled(g, edges, halves, due, k, site), k + 2, site).Keys ==
           due.Keys + (if l then {line[k - 1]} else {}) + (if r then {Half(|edges| - 1, Re)} else {})
  {
    ScheduledKeys(g, edges, halves, due, k, site);
    ScheduledKeys(g, edges, halves, Scheduled(g, edges, halves, due, k, site), k + 2, site);
    hide MeetingAt, Scheduled;
    assert |halves| == |line| + 2 && halves[k + 1] == Half(|edges| - 1, Re) && (k > 0 ==> halves[k - 1] == line[k - 1]);
  }

  /** Which halves have an event once one has been put in at k. */
  lemma JoinKeys(g: Geometry, edges: seq<EdgeInfo>, halves: seq<Half>, due: map<Half, Event>, k: nat, site: Site)
    requires Known(edges, halves)
    ensures var l, r := MeetingAt(g, edges, halves, k).Some?, MeetingAt(g, edges, halves, k + 1).Some?;
      && (l ==> k > 0) && (r ==> k + 1 < |halves|)
      && Scheduled(g, edges, halves, Scheduled(g, edges, halves, due, k, site), k + 1, site).Keys ==
           due.Keys + (if l then {halves[k - 1]} else {}) + (if r then {halves[k]} else {})
  {
    ScheduledKeys(g, edges, halves, due, k, site);
    ScheduledKeys(g, edges, halves, Scheduled(g, edges, halves, due, k, site), k + 1, site);
  }

  /** Both halves put in one after the other. */
  lemma SiteStepIs(s: Sweep, k: nat, site: Site, l: bool, r: bool, halves: seq<Half>, queued: set<Half>)
    requires AllInRange(s) && k <= |s.line| && (l ==> k > 0)
    requires var n := |s.edges|; var one := s.line[..k] + [Half(n, Le)] + s.line[k..];
      halves == one[..k + 1] + [Half(n, Re)] + one[k + 1..]
    requires queued == s.queued + (if l then {s.line[k - 1]} else {}) + (if r then {Half(|s.edges|, Re)} else {})
    ensures var t := SiteStep(s, k, site, l, r);
      t == Sweep(s.bottom, halves, s.edges + [EdgeInfo(RegionAfter(s, k), site, None, None, 0)], queued)
    ensures |halves| == |s.line| + 2
  {
  }

  /** The site step, with the answers of the geometry. */
  lemma SplitAsSaid(g: Geometry, s: Sweep, due: map<Half, Event>, k: nat, site: Site, l: bool, r: bool,
                    halves: seq<Half>, infos: seq<EdgeInfo>, due': map<Half, Event>)
    requires Inv(s) && due.Keys == s.queued && Between(g, s.line, k, site.coord)
    requires infos == s.edges + [EdgeInfo(RegionAfter(s, k), site, None, None, 0)] && Known(infos, halves)
    requires var n := |s.edges|; var one := s.line[..k] + [Half(n, Le)] + s.line[k..];
      halves == one[..k + 1] + [Half(n, Re)] + one[k + 1..]
    requires (l <==> MeetingAt(g, infos, halves, k).Some?) && (r <==> MeetingAt(g, infos, halves, k + 2).Some?)
    requires due' == Scheduled(g, infos, halves, Scheduled(g, infos, halves, due, k, site), k + 2, site)
    ensures var e := AtSite(k, site, l, r);
      && Possible(s, e) && After(s, e) == Sweep(s.bottom, halves, infos, due'.Keys)
      && Answers(g, s, e) && due' == NextDue(g, s, due, e)
  {
    hide Inv, SiteStep, Scheduled, MeetingAt;
    InvFacts(s);
    SplitKeys(g, infos, s.line, halves, due, k, site);
    SiteStepIs(s, k, site, l, r, halves, due'.Keys);
  }

  lemma MembersWithFirst(before: set<Ptr>, after: set<Ptr>, p: Ptr)
    requires p in before && after == before - {p}
    ensures after + {p} == before && p !in after
  {
  }

  lemma EventFacts(line: seq<Ptr>, members: set<Ptr>, ev: EQ.Events, halves: seq<Half>, due: map<Half, Event>, k: nat)
    requires QueueRep(line, members, ev, halves, due) && k < |halves|
    ensures |line| == |halves| + 2 && line[k + 1] in ev && (ev[line[k + 1]].vertex.Some? ==> line[k + 1] in members)
  {
    assert EventAt(members, ev, due, line[k + 1], halves[k]);
  }

  lemma RetiredTwice(halves: seq<Half>, k: nat)
    requires Distinct(halves) && k + 1 < |halves|
    ensures var one := halves[..k] + halves[k + 1..]; one[..k] + one[k + 1..] == halves[..k] + halves[k + 2..]
    ensures Distinct(halves[..k] + halves[k + 2..])
  {
  }

  lemma WithoutAt(line: seq<Ptr>, k: nat)
    requires k < |line|
    ensures var t := Without(line, k);
      && (k > 0 ==> t[k - 1] == line[k - 1])
      && (k + 1 < |line| ==> t[k] == line[k + 1]) && (k + 2 < |line| ==> t[k + 1] == line[k + 2])
  {
  }

  function Finish(infos: seq<EdgeInfo>, a: nat, b: nat): seq<EdgeInfo>
    requires a < |infos| && b < |infos|
  {
    var one := infos[a := infos[a].Finished()];
    one[b := one[b].Finished()]
  }

  lemma FinishBefore(infos: seq<EdgeInfo>, e: EdgeInfo, x: Side, v: Point, a: nat, b: nat)
    requires a < |infos| && b < |infos|
    ensures Finish((infos + [e])[|infos| := e.WithEp(x, v)], a, b) == Finish(infos, a, b) + [e.WithEp(x, v)]
    ensures |Finish(infos, a, b)| == |infos|
  {
  }

  /** The keys less those of the edges that are done. */
  ghost function Open(keys: set<nat>, infos: seq<EdgeInfo>, a: nat, b: nat): set<nat>
    requires a < |infos| && b < |infos|
  {
    keys - (if infos[a].Done() then {a} else {}) - (if infos[b].Done() then {b} else {})
  }

  /** No edge that is done keeps its record. */
  lemma OnlyOpenAtHome(s: Sweep, k: nat, v: Point, before: set<nat>, after: set<nat>, infos: seq<EdgeInfo>)
    requires AllInRange(s) && k + 1 < |s.line|
    requires forall n :: n in before ==> n < |s.edges| && !s.edges[n].Done()
    requires after == Open(before, WithVertex(s, k, v), s.line[k].edge, s.line[k + 1].edge) + {|s.edges|}
    requires infos == Finish(WithVertex(s, k, v), s.line[k].edge, s.line[k + 1].edge) + [CircleEdge(s, k, v).0]
    ensures forall n :: n in after ==> n < |infos| && !infos[n].Done()
  {
  }

  /** The circle step, put together from its parts. */
  lemma CircleStepIs(s: Sweep, k: nat, v: Point, l: bool, r: bool, halves: seq<Half>, infos: seq<EdgeInfo>, queued: set<Half>)
    requires Inv(s) && k + 1 < |s.line| && (l ==> k > 0) && s.line[k] in s.queued
    requires var (e, pm) := CircleEdge(s, k, v); var n := |s.edges|;
      && halves == s.line[..k] + [Half(n, pm)] + s.line[k + 2..]
      && queued == s.queued - {s.line[k], s.line[k + 1]} + (if l then {s.line[k - 1]} else {}) + (if r then {Half(n, pm)} else {})
      && infos == Finish(WithVertex(s, k, v), s.line[k].edge, s.line[k + 1].edge) + [e]
    ensures CircleStep(s, k, v, l, r) == Sweep(s.bottom, halves, infos, queued)
  {
  }

  /** The circle step, with the answers of the geometry. */
  lemma JoinedAsSaid(g: Geometry, s: Sweep, due: map<Half, Event>, k: nat, v: Point, l: bool, r: bool,
                     halves: seq<Half>, infos: seq<EdgeInfo>, due': map<Half, Event>)
    requires Inv(s) && due.Keys == s.queued && k + 1 < |s.line| && s.line[k] in s.queued
    requires var (e, pm) := CircleEdge(s, k, v); var n := |s.edges|;
      && halves == s.line[..k] + [Half(n, pm)] + s.line[k + 2..]
      && infos == Finish(WithVertex(s, k, v), s.line[k].edge, s.line[k + 1].edge) + [e]
    requires Known(infos, halves)
    requires (l <==> MeetingAt(g, infos, halves, k).Some?) && (r <==> MeetingAt(g, infos, halves, k + 1).Some?)
    requires var rest, site := due - {s.line[k], s.line[k + 1]}, CircleEdge(s, k, v).0.reg0;
      due' == Scheduled(g, infos, halves, Scheduled(g, infos, halves, rest, k, site), k + 1, site)
    ensures var e := AtVertex(k, v, l, r);
      && Possible(s, e) && After(s, e) == Sweep(s.bottom, halves, infos, due'.Keys)
      && Answers(g, s, e) && due' == NextDue(g, s, due, e)
  {
    hide Inv, CircleStep, Scheduled, MeetingAt, Finish, WithVertex, CircleEdge;
    InvFacts(s);
    JoinKeys(g, infos, halves, due - {s.line[k], s.line[k + 1]}, k, CircleEdge(s, k, v).0.reg0);
    CircleStepIs(s, k, v, l, r, halves, infos, due'.Keys);
  }

  function EventOfNothing(): Event {
    Event(None, 0.0)
  }

  lemma MembersAreContents(q: EQ.EventQueue)
    ensures forall p :: p in q.Members() <==> p in q.Contents()
  {
  }

  lemma LineLength(line: seq<Ptr>, edge: map<Ptr, EdgeRef>, pm: map<Ptr, Side>, home: map<nat, nat>, halves: seq<Half>)
    requires LineRep(line, edge, pm, home, halves)
    ensures |line| == |halves| + 2
  {
  }

  lemma NotQueued(line: seq<Ptr>, members: set<Ptr>, ev: EQ.Events, halves: seq<Half>, due: map<Half, Event>, p: Ptr)
    requires QueueRep(line, members, ev, halves, due) && p !in line
    ensures p !in members
  {
  }

  lemma DistinctInsert(halves: seq<Half>, k: nat, h: Half)
    requires Distinct(halves) && k <= |halves| && h !in halves
    ensures Distinct(halves[..k] + [h] + halves[k..])
  {
  }

  lemma EmptyReps(line: seq<Ptr>, edge: map<Ptr, EdgeRef>, pm: map<Ptr, Side>, ev: EQ.Events)
    requires |line| == 2
    ensures LineRep(line, edge, pm, map[], []) && QueueRep(line, {}, ev, [], map[]) && EdgePool(map[], {}, 0, map[], [], [])
  {
  }

  lemma NewEdgeNotHome(records: map<nat, EdgeRec>, free: set<nat>, pool: nat, home: map<nat, nat>, infos: seq<EdgeInfo>, clipped: seq<nat>)
    requires EdgePool(records, free, pool, home, infos, clipped)
    ensures |infos| !in home
  {
  }
}
