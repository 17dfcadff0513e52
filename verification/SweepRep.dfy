/**
 * How the data structures of the sweep stand for its model: which node is which half, which record is which
 * edge, and which nodes have an event.
 */
module SweepRep {
  import opened Common
  import opened SweepTypes
  import opened SweepModel
  import opened EventQueue
  import BL = BeachLine

  /** A record of the edge pool. */
  datatype EdgeRec = EdgeRec(reg0: Site, reg1: Site, ep0: Option<Point>, ep1: Option<Point>, edgenbr: nat)

  function RecordOf(e: EdgeInfo, n: nat): EdgeRec {
    EdgeRec(e.reg0, e.reg1, e.ep0, e.ep1, n)
  }

  // ---- Nodes ----

  /** Node p stands for half h. */
  ghost predicate IsHalf(edge: map<Ptr, EdgeRef>, pm: map<Ptr, Side>, home: map<nat, nat>, p: Ptr, h: Half) {
    && h.edge in home && p in edge && edge[p] == Of(home[h.edge]) && p in pm && pm[p] == h.side
  }

  /** The nodes between the two ends stand for the halves of the model, in order. */
  ghost predicate LineRep(line: seq<Ptr>, edge: map<Ptr, EdgeRef>, pm: map<Ptr, Side>, home: map<nat, nat>, halves: seq<Half>) {
    && |line| == |halves| + 2
    && forall i :: 0 <= i < |halves| ==> IsHalf(edge, pm, home, line[i + 1], halves[i])
  }

  lemma LineRepInsert(line: seq<Ptr>, edge: map<Ptr, EdgeRef>, pm: map<Ptr, Side>, home: map<nat, nat>, halves: seq<Half>,
                      k: nat, p: Ptr, h: Half)
    requires LineRep(line, edge, pm, home, halves) && k <= |halves| && IsHalf(edge, pm, home, p, h)
    ensures LineRep(Inserted(line, k + 1, p), edge, pm, home, halves[..k] + [h] + halves[k..])
  {
    var more, t := Inserted(line, k + 1, p), halves[..k] + [h] + halves[k..];
    forall i | 0 <= i < |t|
      ensures IsHalf(edge, pm, home, more[i + 1], t[i])
    {
      if i != k {
        var j := if i < k then i else i - 1;
        assert IsHalf(edge, pm, home, line[j + 1], halves[j]);
      }
    }
  }

  lemma LineRepRemove(line: seq<Ptr>, edge: map<Ptr, EdgeRef>, more: map<Ptr, EdgeRef>, pm: map<Ptr, Side>,
                      home: map<nat, nat>, halves: seq<Half>, k: nat)
    requires LineRep(line, edge, pm, home, halves) && k < |halves|
    requires forall i :: 0 <= i < |line| && i != k + 1 && line[i] in edge ==> line[i] in more && more[line[i]] == edge[line[i]]
    ensures LineRep(Without(line, k + 1), more, pm, home, halves[..k] + halves[k + 1..])
  {
    var less, t := Without(line, k + 1), halves[..k] + halves[k + 1..];
    forall i | 0 <= i < |t|
      ensures IsHalf(more, pm, home, less[i + 1], t[i])
    {
      var j := if i < k then i else i + 1;
      assert IsHalf(edge, pm, home, line[j + 1], halves[j]) && less[i + 1] == line[j + 1] && t[i] == halves[j];
    }
  }

  /** A node that is not in the line may become anything, and an edge no half is of may go. */
  lemma LineRepElsewhere(line: seq<Ptr>, edge: map<Ptr, EdgeRef>, pm: map<Ptr, Side>, home: map<nat, nat>, halves: seq<Half>,
                         edge': map<Ptr, EdgeRef>, pm': map<Ptr, Side>, home': map<nat, nat>)
    requires LineRep(line, edge, pm, home, halves)
    requires forall p :: p in line && p in edge ==> p in edge' && edge'[p] == edge[p]
    requires forall p :: p in line && p in pm ==> p in pm' && pm'[p] == pm[p]
    requires forall i :: 0 <= i < |halves| && halves[i].edge in home ==> halves[i].edge in home' && home'[halves[i].edge] == home[halves[i].edge]
    ensures LineRep(line, edge', pm', home', halves)
  {
    forall i | 0 <= i < |halves|
      ensures IsHalf(edge', pm', home', line[i + 1], halves[i])
    {
      assert IsHalf(edge, pm, home, line[i + 1], halves[i]);
    }
  }

  // ---- Events ----

  /** Node p is in the queue, and has a vertex, if and only if half h is due, and then for the same event. */
  ghost predicate EventAt(members: set<Ptr>, ev: Events, due: map<Half, Event>, p: Ptr, h: Half) {
    && p in ev && (ev[p].vertex.Some? <==> p in members) && (p in members <==> h in due)
    && (h in due ==> due[h] == ev[p])
  }

  /** What is in the queue is in the line, between its ends. */
  ghost predicate QueueRep(line: seq<Ptr>, members: set<Ptr>, ev: Events, halves: seq<Half>, due: map<Half, Event>) {
    && |line| == |halves| + 2
    && (forall i :: 0 <= i < |halves| ==> EventAt(members, ev, due, line[i + 1], halves[i]))
    && (forall p :: p in members ==> p in line && p != line[0] && p != line[|line| - 1])
    && (forall h :: h in due ==> h in halves)
  }

  lemma QueueRepInsert(line: seq<Ptr>, members: set<Ptr>, ev: Events, halves: seq<Half>, due: map<Half, Event>, k: nat, p: Ptr, h: Half)
    requires QueueRep(line, members, ev, halves, due) && k <= |halves| && p !in line && h !in halves
    requires p in ev && ev[p].vertex == None
    ensures QueueRep(Inserted(line, k + 1, p), members, ev, halves[..k] + [h] + halves[k..], due)
  {
    var more, t := Inserted(line, k + 1, p), halves[..k] + [h] + halves[k..];
    forall i | 0 <= i < |t|
      ensures EventAt(members, ev, due, more[i + 1], t[i])
    {
      if i != k {
        var j := if i < k then i else i - 1;
        assert EventAt(members, ev, due, line[j + 1], halves[j]) && more[i + 1] == line[j + 1] && t[i] == halves[j];
      }
    }
    forall q | q in members
      ensures q in more
    {
      var i :| 0 <= i < |line| && line[i] == q;
      assert more[if i <= k then i else i + 1] == q;
    }
    forall g | g in due
      ensures g in t
    {
      var i :| 0 <= i < |halves| && halves[i] == g;
      assert t[if i < k then i else i + 1] == g;
    }
  }

  lemma NotDue(line: seq<Ptr>, members: set<Ptr>, ev: Events, halves: seq<Half>, due: map<Half, Event>, k: nat)
    requires QueueRep(line, members, ev, halves, due) && k < |halves| && line[k + 1] !in members
    ensures halves[k] !in due
  {
    assert EventAt(members, ev, due, line[k + 1], halves[k]);
  }

  lemma QueueRepRemove(line: seq<Ptr>, members: set<Ptr>, ev: Events, halves: seq<Half>, due: map<Half, Event>, k: nat)
    requires QueueRep(line, members, ev, halves, due) && k < |halves| && line[k + 1] !in members
    requires Distinct(line)
    ensures QueueRep(Without(line, k + 1), members, ev, halves[..k] + halves[k + 1..], due)
  {
    hide EventAt;
    NotDue(line, members, ev, halves, due, k);
    var less, t := Without(line, k + 1), halves[..k] + halves[k + 1..];
    forall i | 0 <= i < |t|
      ensures EventAt(members, ev, due, less[i + 1], t[i])
    {
      var j := if i < k then i else i + 1;
      assert EventAt(members, ev, due, line[j + 1], halves[j]) && less[i + 1] == line[j + 1] && t[i] == halves[j];
    }
    forall q | q in members
      ensures q in less
    {
      var i :| 0 <= i < |line| && line[i] == q;
      assert less[if i <= k then i else i - 1] == q;
    }
    forall g | g in due
      ensures g in t
    {
      var i :| 0 <= i < |halves| && halves[i] == g;
      assert t[if i < k then i else i - 1] == g;
    }
  }

  /** The node at k gets an event. */
  lemma QueueRepAdd(line: seq<Ptr>, members: set<Ptr>, ev: Events, halves: seq<Half>, due: map<Half, Event>, k: nat, e: Event)
    requires QueueRep(line, members, ev, halves, due) && k < |halves| && e.vertex.Some?
    requires Distinct(line) && Distinct(halves)
    ensures QueueRep(line, members + {line[k + 1]}, ev[line[k + 1] := e], halves, due[halves[k] := e])
  {
    var p := line[k + 1];
    forall i | 0 <= i < |halves|
      ensures EventAt(members + {p}, ev[p := e], due[halves[k] := e], line[i + 1], halves[i])
    {
      assert EventAt(members, ev, due, line[i + 1], halves[i]);
    }
  }

  /** The node at k loses its event, if it has one. */
  lemma QueueRepDrop(line: seq<Ptr>, members: set<Ptr>, ev: Events, halves: seq<Half>, due: map<Half, Event>, k: nat, e: Event)
    requires QueueRep(line, members, ev, halves, due) && k < |halves| && e.vertex == None
    requires Distinct(line) && Distinct(halves)
    ensures QueueRep(line, members - {line[k + 1]}, ev[line[k + 1] := e], halves, due - {halves[k]})
  {
    var p := line[k + 1];
    forall i | 0 <= i < |halves|
      ensures EventAt(members - {p}, ev[p := e], due - {halves[k]}, line[i + 1], halves[i])
    {
      assert EventAt(members, ev, due, line[i + 1], halves[i]);
    }
  }

  lemma QueueRepElsewhere(line: seq<Ptr>, members: set<Ptr>, ev: Events, halves: seq<Half>, due: map<Half, Event>, p: Ptr, e: Event)
    requires QueueRep(line, members, ev, halves, due) && p !in line
    ensures QueueRep(line, members, ev[p := e], halves, due)
  {
    forall i | 0 <= i < |halves|
      ensures EventAt(members, ev[p := e], due, line[i + 1], halves[i])
    {
      assert EventAt(members, ev, due, line[i + 1], halves[i]);
    }
  }

  /** Both nodes of an event, and the events they had, leave together. */
  lemma QueueRepRetire(line: seq<Ptr>, members: set<Ptr>, ev: Events, halves: seq<Half>, due: map<Half, Event>, k: nat, ev': Events)
    requires QueueRep(line, members, ev, halves, due) && k + 1 < |halves| && Distinct(line) && Distinct(halves)
    requires forall p :: p in line && p != line[k + 1] && p != line[k + 2] && p in ev ==> p in ev' && ev'[p] == ev[p]
    ensures Distinct(Without(line, k + 1))
    ensures QueueRep(Without(Without(line, k + 1), k + 1), members - {line[k + 1], line[k + 2]}, ev',
                     halves[..k] + halves[k + 2..], due - {halves[k], halves[k + 1]})
  {
    hide QueueRep;
    QueueLength(line, members, ev, halves, due);
    var p, q, none := line[k + 1], line[k + 2], Event(None, 0.0);
    var less, ev0, due0 := Without(line, k + 1), ev[p := none], due - {halves[k]};
    QueueRepDrop(line, members, ev, halves, due, k, none);
    QueueRepRemove(line, members - {p}, ev0, halves, due0, k);
    var t := halves[..k] + halves[k + 1..];
    assert t[k] == halves[k + 1] && less[k + 1] == q;
    QueueRepDrop(less, members - {p}, ev0, t, due0, k, none);
    QueueRepRemove(less, members - {p} - {q}, ev0[q := none], t, due0 - {halves[k + 1]}, k);
    assert t[..k] + t[k + 1..] == halves[..k] + halves[k + 2..];
    assert members - {p} - {q} == members - {p, q};
    assert due0 - {halves[k + 1]} == due - {halves[k], halves[k + 1]};
    var rest := Without(less, k + 1);
    assert forall x :: x in rest ==> x in line && x != p && x != q by {
      assert forall i :: 0 <= i < |rest| ==> rest[i] == line[if i <= k then i else i + 2];
    }
    SameEvents(rest, members - {p, q}, ev0[q := none], halves[..k] + halves[k + 2..], due - {halves[k], halves[k + 1]}, ev');
  }

  lemma QueueLength(line: seq<Ptr>, members: set<Ptr>, ev: Events, halves: seq<Half>, due: map<Half, Event>)
    requires QueueRep(line, members, ev, halves, due)
    ensures |line| == |halves| + 2
  {
  }

  lemma SameEvents(line: seq<Ptr>, members: set<Ptr>, ev: Events, halves: seq<Half>, due: map<Half, Event>, ev': Events)
    requires QueueRep(line, members, ev, halves, due)
    requires forall p :: p in line && p in ev ==> p in ev' && ev'[p] == ev[p]
    ensures QueueRep(line, members, ev', halves, due)
  {
    forall i | 0 <= i < |halves|
      ensures EventAt(members, ev', due, line[i + 1], halves[i])
    {
      assert EventAt(members, ev, due, line[i + 1], halves[i]);
    }
  }

  // ---- Edges ----

  /**
   * Every edge that still lacks an end has a record of its own that is not free; `home` says where. `clipped`
   * counts how often each edge has been clipped.
   */
  ghost predicate EdgePool(records: map<nat, EdgeRec>, free: set<nat>, pool: nat, home: map<nat, nat>,
                           infos: seq<EdgeInfo>, clipped: seq<nat>) {
    && |clipped| == |infos|
    && (forall n :: 0 <= n < |infos| ==> clipped[n] == infos[n].clips)
    && (forall n :: 0 <= n < |infos| && !infos[n].Done() ==> n in home)
    && (forall n :: n in home ==> n < |infos| && home[n] < pool && home[n] !in free
                                  && home[n] in records && records[home[n]] == RecordOf(infos[n], n))
    && (forall a :: a in free ==> a < pool)
  }

  lemma PoolTake(records: map<nat, EdgeRec>, free: set<nat>, pool: nat, home: map<nat, nat>, infos: seq<EdgeInfo>,
                 clipped: seq<nat>, a: nat, less: set<nat>, more: nat, s1: Site, s2: Site)
    requires EdgePool(records, free, pool, home, infos, clipped)
    requires if a in free then less == free - {a} && more == pool else less == free && a == pool && more == pool + 1
    ensures var n := |infos|;
      EdgePool(records[a := EdgeRec(s1, s2, None, None, n)], less, more, home[n := a],
               infos + [EdgeInfo(s1, s2, None, None, 0)], clipped + [0])
  {
    var n := |infos|;
    assert forall m :: m in home ==> home[m] != a;
  }

  lemma PoolEnd(records: map<nat, EdgeRec>, free: set<nat>, pool: nat, home: map<nat, nat>, infos: seq<EdgeInfo>,
                clipped: seq<nat>, n: nat, x: Side, v: Point)
    requires EdgePool(records, free, pool, home, infos, clipped) && n in home
    ensures n < |infos| && home[n] in records
    ensures var r := records[home[n]];
      EdgePool(records[home[n] := if x.Le? then r.(ep0 := Some(v)) else r.(ep1 := Some(v))], free, pool, home,
               infos[n := infos[n].WithEp(x, v)], clipped)
  {
    assert forall m :: m in home && m != n ==> home[m] != home[n];
  }

  lemma PoolFree(records: map<nat, EdgeRec>, free: set<nat>, pool: nat, home: map<nat, nat>, infos: seq<EdgeInfo>,
                 clipped: seq<nat>, n: nat)
    requires EdgePool(records, free, pool, home, infos, clipped) && n in home && n < |infos| && infos[n].Done()
    ensures EdgePool(records, free + {home[n]}, pool, home - {n}, infos[n := infos[n].Finished()], clipped[n := clipped[n] + 1])
  {
    assert forall m :: m in home && m != n ==> home[m] != home[n];
  }
}
