/**
 * The sweep without its data structures: the beach line as a sequence of edge halves, all edges ever made,
 * and the halves that have a circle event. Where a site falls, and which halves meet, is arbitrary at first;
 * then a geometry decides it, and when each half is due.
 */
module SweepModel {
  import opened Common
  import opened SweepTypes

  /** One half of an edge; edges are known by the order in which they were made. */
  datatype Half = Half(edge: nat, side: Side)

  datatype EdgeInfo = EdgeInfo(reg0: Site, reg1: Site, ep0: Option<Point>, ep1: Option<Point>, clips: nat) {
    function Reg(x: Side): Site {
      if x.Le? then reg0 else reg1
    }

    function Ep(x: Side): Option<Point> {
      if x.Le? then ep0 else ep1
    }

    function WithEp(x: Side, v: Point): EdgeInfo {
      if x.Le? then this.(ep0 := Some(v)) else this.(ep1 := Some(v))
    }

    predicate Done() {
      ep0.Some? && ep1.Some?
    }

    /** An edge with both ends is clipped, once, and given back. */
    function Finished(): EdgeInfo {
      if Done() then this.(clips := clips + 1) else this
    }
  }

  datatype Sweep = Sweep(bottom: Site, line: seq<Half>, edges: seq<EdgeInfo>, queued: set<Half>)

  predicate InRange(s: Sweep, h: Half) {
    h.edge < |s.edges|
  }

  /** The region to the left of a half. */
  function LeftReg(s: Sweep, h: Half): Site
    requires InRange(s, h)
  {
    s.edges[h.edge].Reg(h.side)
  }

  function RightReg(s: Sweep, h: Half): Site
    requires InRange(s, h)
  {
    s.edges[h.edge].Reg(h.side.Other())
  }

  predicate AllInRange(s: Sweep) {
    forall i :: 0 <= i < |s.line| ==> InRange(s, s.line[i])
  }

  /** The region that begins behind the first k halves. */
  function RegionAfter(s: Sweep, k: nat): Site
    requires AllInRange(s) && k <= |s.line|
  {
    if k == 0 then s.bottom else RightReg(s, s.line[k - 1])
  }

  /** The region that ends in front of the half at k. */
  function RegionBefore(s: Sweep, k: nat): Site
    requires AllInRange(s) && k <= |s.line|
  {
    if k == |s.line| then s.bottom else LeftReg(s, s.line[k])
  }

  /** Neighbours agree on the region between them; the outermost regions belong to the bottom site. */
  ghost predicate ArcChain(s: Sweep)
    requires AllInRange(s)
  {
    forall k :: 0 <= k <= |s.line| ==> RegionAfter(s, k) == RegionBefore(s, k)
  }

  /** An edge lacks the vertex at one of its ends exactly as long as that half is in the line. */
  ghost predicate EndsOpen(s: Sweep) {
    forall n, x :: 0 <= n < |s.edges| ==> (s.edges[n].Ep(x) == None <==> Half(n, x) in s.line)
  }

  /** A half with a circle event is in the line, in front of a half of another edge. */
  ghost predicate EventsOk(s: Sweep) {
    && (forall h :: h in s.queued ==> h in s.line)
    && (forall i :: 0 <= i < |s.line| && s.line[i] in s.queued ==>
          i + 1 < |s.line| && s.line[i + 1].edge != s.line[i].edge)
  }

  ghost predicate ClippedWhenDone(s: Sweep) {
    forall n :: 0 <= n < |s.edges| ==> s.edges[n].clips == if s.edges[n].Done() then 1 else 0
  }

  ghost predicate Inv(s: Sweep) {
    AllInRange(s) && Distinct(s.line) && ArcChain(s) && EndsOpen(s) && EventsOk(s) && ClippedWhenDone(s)
  }

  function Start(bottom: Site): Sweep {
    Sweep(bottom, [], [], {})
  }

  // ---- A site event ----

  /** A new site splits the region behind the first k halves; the two halves of its edge go in between. */
  function SiteStep(s: Sweep, k: nat, site: Site, leftMeets: bool, rightMeets: bool): Sweep
    requires AllInRange(s) && k <= |s.line| && (leftMeets ==> k > 0)
  {
    var n := |s.edges|;
    Sweep(s.bottom,
          s.line[..k] + [Half(n, Le), Half(n, Re)] + s.line[k..],
          s.edges + [EdgeInfo(RegionAfter(s, k), site, None, None, 0)],
          s.queued + (if leftMeets then {s.line[k - 1]} else {}) + (if rightMeets then {Half(n, Re)} else {}))
  }

  lemma SplitMembers(line: seq<Half>, k: nat, a: Half, b: Half)
    requires k <= |line|
    ensures var t := line[..k] + [a, b] + line[k..];
      && (forall h :: h in t <==> h in line || h == a || h == b)
      && (forall i :: 0 <= i < |t| ==> t[i] == if i < k then line[i] else if i == k then a else if i == k + 1 then b else line[i - 2])
  {
    var t := line[..k] + [a, b] + line[k..];
    forall h
      ensures h in t <==> h in line || h == a || h == b
    {
      assert h in line <==> h in line[..k] || h in line[k..] by {
        assert line == line[..k] + line[k..];
      }
    }
  }

  /** The edges of the next state are those there were, with the same regions, and one more. */
  ghost predicate KeepsRegions(s: Sweep, t: Sweep) {
    && t.bottom == s.bottom && |t.edges| == |s.edges| + 1
    && forall n :: 0 <= n < |s.edges| ==> t.edges[n].reg0 == s.edges[n].reg0 && t.edges[n].reg1 == s.edges[n].reg1
  }

  lemma RegionsKept(s: Sweep, t: Sweep, h: Half)
    requires KeepsRegions(s, t) && InRange(s, h)
    ensures InRange(t, h) && LeftReg(t, h) == LeftReg(s, h) && RightReg(t, h) == RightReg(s, h)
  {
  }

  lemma SiteStepChain(s: Sweep, k: nat, site: Site, l: bool, r: bool)
    requires AllInRange(s) && ArcChain(s) && Distinct(s.line) && k <= |s.line| && (l ==> k > 0)
    ensures var t := SiteStep(s, k, site, l, r); AllInRange(t) && ArcChain(t) && Distinct(t.line)
  {
    var n, t := |s.edges|, SiteStep(s, k, site, l, r);
    SplitMembers(s.line, k, Half(n, Le), Half(n, Re));
    assert t.edges[n] == EdgeInfo(RegionAfter(s, k), site, None, None, 0);
    forall j | 0 <= j <= |t.line|
      ensures AllInRange(t) && RegionAfter(t, j) == RegionBefore(t, j)
    {
      SiteStepLink(s, k, site, l, r, j);
    }
    assert forall i :: 0 <= i < |s.line| ==> s.line[i].edge != n;
  }

  lemma SiteStepInRange(s: Sweep, k: nat, site: Site, l: bool, r: bool)
    requires AllInRange(s) && k <= |s.line| && (l ==> k > 0)
    ensures var t := SiteStep(s, k, site, l, r); |t.line| == |s.line| + 2 && AllInRange(t) && KeepsRegions(s, t)
  {
    SplitMembers(s.line, k, Half(|s.edges|, Le), Half(|s.edges|, Re));
  }

  lemma SiteStepLink(s: Sweep, k: nat, site: Site, l: bool, r: bool, j: nat)
    requires AllInRange(s) && ArcChain(s) && k <= |s.line| && (l ==> k > 0) && j <= |s.line| + 2
    ensures var t := SiteStep(s, k, site, l, r);
      |t.line| == |s.line| + 2 && AllInRange(t) && RegionAfter(t, j) == RegionBefore(t, j)
  {
    hide ArcChain, AllInRange, KeepsRegions;
    SiteStepInRange(s, k, site, l, r);
    var t, i := SiteStep(s, k, site, l, r), if j <= k then j else if j >= k + 2 then j - 2 else k;
    LinkAt(s, i);
    LinkAt(s, k);
    SiteStepAfter(s, k, site, l, r, j);
    SiteStepBefore(s, k, site, l, r, j);
  }

  lemma SiteStepAfter(s: Sweep, k: nat, site: Site, l: bool, r: bool, j: nat)
    requires AllInRange(s) && k <= |s.line| && (l ==> k > 0) && j <= |s.line| + 2
    requires AllInRange(SiteStep(s, k, site, l, r)) && KeepsRegions(s, SiteStep(s, k, site, l, r))
    ensures RegionAfter(SiteStep(s, k, site, l, r), j) ==
      if j <= k then RegionAfter(s, j) else if j == k + 1 then site else RegionAfter(s, if j == k + 2 then k else j - 2)
  {
    var t, n := SiteStep(s, k, site, l, r), |s.edges|;
    assert t.edges[n] == EdgeInfo(RegionAfter(s, k), site, None, None, 0);
    if 0 < j <= k {
      assert t.line[j - 1] == s.line[j - 1];
      RegionsKept(s, t, s.line[j - 1]);
    } else if j > k + 2 {
      assert t.line[j - 1] == s.line[j - 3];
      RegionsKept(s, t, s.line[j - 3]);
    }
  }

  lemma SiteStepBefore(s: Sweep, k: nat, site: Site, l: bool, r: bool, j: nat)
    requires AllInRange(s) && k <= |s.line| && (l ==> k > 0) && j <= |s.line| + 2
    requires AllInRange(SiteStep(s, k, site, l, r)) && KeepsRegions(s, SiteStep(s, k, site, l, r))
    ensures RegionBefore(SiteStep(s, k, site, l, r), j) ==
      if j < k then RegionBefore(s, j) else if j == k then RegionAfter(s, k)
      else if j == k + 1 then site else RegionBefore(s, j - 2)
  {
    var t, n := SiteStep(s, k, site, l, r), |s.edges|;
    assert t.edges[n] == EdgeInfo(RegionAfter(s, k), site, None, None, 0);
    if j < k {
      assert t.line[j] == s.line[j];
      RegionsKept(s, t, s.line[j]);
    } else if k + 2 <= j < |t.line| {
      assert t.line[j] == s.line[j - 2];
      RegionsKept(s, t, s.line[j - 2]);
    }
  }

  lemma LinkAt(s: Sweep, i: nat)
    requires AllInRange(s) && ArcChain(s) && i <= |s.line|
    ensures RegionAfter(s, i) == RegionBefore(s, i)
  {
  }

  lemma SiteStepEnds(s: Sweep, k: nat, site: Site, l: bool, r: bool)
    requires Inv(s) && k <= |s.line| && (l ==> k > 0)
    ensures EndsOpen(SiteStep(s, k, site, l, r)) && ClippedWhenDone(SiteStep(s, k, site, l, r))
  {
    hide ArcChain, EventsOk, Distinct;
    var n, t := |s.edges|, SiteStep(s, k, site, l, r);
    assert |t.edges| == n + 1 && t.edges[n] == EdgeInfo(RegionAfter(s, k), site, None, None, 0);
    forall m, x | 0 <= m < n + 1
      ensures t.edges[m].Ep(x) == None <==> Half(m, x) in t.line
    {
      SiteStepEnd(s, k, site, l, r, m, x);
    }
  }

  lemma SiteStepEnd(s: Sweep, k: nat, site: Site, l: bool, r: bool, m: nat, x: Side)
    requires AllInRange(s) && EndsOpen(s) && k <= |s.line| && (l ==> k > 0) && m <= |s.edges|
    ensures var t := SiteStep(s, k, site, l, r); t.edges[m].Ep(x) == None <==> Half(m, x) in t.line
  {
    var n := |s.edges|;
    SplitMembers(s.line, k, Half(n, Le), Half(n, Re));
    if m < n {
      assert s.edges[m].Ep(x) == None <==> Half(m, x) in s.line;
    }
  }

  lemma SiteStepEvents(s: Sweep, k: nat, site: Site, l: bool, r: bool)
    requires AllInRange(s) && EventsOk(s) && Distinct(s.line) && k <= |s.line| && (l ==> k > 0) && (r ==> k < |s.line|)
    ensures EventsOk(SiteStep(s, k, site, l, r))
  {
    var n, t := |s.edges|, SiteStep(s, k, site, l, r);
    SplitMembers(s.line, k, Half(n, Le), Half(n, Re));
    forall i | 0 <= i < |t.line| && t.line[i] in t.queued
      ensures i + 1 < |t.line| && t.line[i + 1].edge != t.line[i].edge
    {
      SiteStepEvent(s, k, site, l, r, i);
    }
  }

  lemma SiteStepEvent(s: Sweep, k: nat, site: Site, l: bool, r: bool, i: nat)
    requires AllInRange(s) && EventsOk(s) && Distinct(s.line) && k <= |s.line| && (l ==> k > 0) && (r ==> k < |s.line|)
    requires var t := SiteStep(s, k, site, l, r); i < |t.line| && t.line[i] in t.queued
    ensures var t := SiteStep(s, k, site, l, r); i + 1 < |t.line| && t.line[i + 1].edge != t.line[i].edge
  {
    var n, t := |s.edges|, SiteStep(s, k, site, l, r);
    if i < k {
      assert t.line[i] == s.line[i] && InRange(s, s.line[i]);
      if i + 1 < k {
        assert t.line[i + 1] == s.line[i + 1];
        if l && s.line[i] == s.line[k - 1] {
          assert false;
        }
      }
    } else if i >= k + 2 {
      assert t.line[i] == s.line[i - 2] && InRange(s, s.line[i - 2]);
      if l && s.line[i - 2] == s.line[k - 1] {
        assert false;
      }
      assert i + 1 < |t.line| ==> t.line[i + 1] == s.line[i - 1];
    } else if i == k + 1 {
      assert i + 1 < |t.line| ==> t.line[i + 1] == s.line[k] && InRange(s, s.line[k]);
    }
  }

  lemma SiteStepInv(s: Sweep, k: nat, site: Site, l: bool, r: bool)
    requires Inv(s) && k <= |s.line| && (l ==> k > 0) && (r ==> k < |s.line|)
    ensures Inv(SiteStep(s, k, site, l, r))
  {
    hide ArcChain, EndsOpen, EventsOk, ClippedWhenDone, Distinct, SiteStep;
    SiteStepChain(s, k, site, l, r);
    SiteStepEnds(s, k, site, l, r);
    SiteStepEvents(s, k, site, l, r);
  }

  // ---- A circle event ----

  /** What happens to an edge one of whose halves ends at the vertex. */
  function Ended(e: EdgeInfo, x: Side, v: Point): EdgeInfo {
    e.WithEp(x, v).Finished()
  }

  /**
   * The edge made at a vertex between the regions to its left and right, and which of its halves goes into the
   * line: the lower site comes first, and the half that ends at the vertex stays out.
   */
  function JoiningEdge(left: Site, right: Site, v: Point): (r: (EdgeInfo, Side))
    ensures r.0.reg0.coord.y <= r.0.reg1.coord.y
    ensures r.0.Reg(r.1) == left && r.0.Reg(r.1.Other()) == right
    ensures r.1 == Re <==> left.coord.y > right.coord.y
    ensures r.0.Ep(r.1) == None && r.0.Ep(r.1.Other()) == Some(v) && r.0.clips == 0
  {
    if left.coord.y > right.coord.y then (EdgeInfo(right, left, Some(v), None, 0), Re)
    else (EdgeInfo(left, right, None, Some(v), 0), Le)
  }

  /** The region between the halves at k and k + 1 vanishes at the vertex v, and one new half replaces the two. */
  function CircleEdge(s: Sweep, k: nat, v: Point): (EdgeInfo, Side)
    requires AllInRange(s) && k + 1 < |s.line|
  {
    JoiningEdge(LeftReg(s, s.line[k]), RightReg(s, s.line[k + 1]), v)
  }

  /** The edges once the vertex has been noted at the halves at k and k + 1. */
  function WithVertex(s: Sweep, k: nat, v: Point): seq<EdgeInfo>
    requires AllInRange(s) && k + 1 < |s.line|
  {
    var a, b := s.line[k], s.line[k + 1];
    var one := s.edges[a.edge := s.edges[a.edge].WithEp(a.side, v)];
    one[b.edge := one[b.edge].WithEp(b.side, v)]
  }

  function CircleStep(s: Sweep, k: nat, v: Point, leftMeets: bool, rightMeets: bool): Sweep
    requires AllInRange(s) && k + 1 < |s.line| && (leftMeets ==> k > 0)
  {
    var n, (e, pm), a, b := |s.edges|, CircleEdge(s, k, v), s.line[k], s.line[k + 1];
    var ended := s.edges[a.edge := Ended(s.edges[a.edge], a.side, v)];
    Sweep(s.bottom,
          s.line[..k] + [Half(n, pm)] + s.line[k + 2..],
          ended[b.edge := Ended(ended[b.edge], b.side, v)] + [e],
          s.queued - {a, b} + (if leftMeets then {s.line[k - 1]} else {}) + (if rightMeets then {Half(n, pm)} else {}))
  }

  lemma MergeMembers(line: seq<Half>, k: nat, a: Half)
    requires k + 1 < |line| && Distinct(line)
    ensures var t := line[..k] + [a] + line[k + 2..];
      && (forall h :: h in t <==> h == a || (h in line && h != line[k] && h != line[k + 1]))
      && (forall i :: 0 <= i < |t| ==> t[i] == if i < k then line[i] else if i == k then a else line[i + 1])
  {
    var t := line[..k] + [a] + line[k + 2..];
    forall h
      ensures h in t <==> h == a || (h in line && h != line[k] && h != line[k + 1])
    {
      if h in line && h != line[k] && h != line[k + 1] {
        var i :| 0 <= i < |line| && line[i] == h;
        assert t[if i < k then i else i - 1] == h;
      }
    }
  }

  /** Ending halves leaves the regions of every edge alone. */
  lemma CircleStepEdges(s: Sweep, k: nat, v: Point, l: bool, r: bool, n: nat)
    requires Inv(s) && k + 1 < |s.line| && (l ==> k > 0) && s.line[k] in s.queued && n < |s.edges|
    ensures var t, a, b := CircleStep(s, k, v, l, r), s.line[k], s.line[k + 1];
      && a.edge != b.edge && |t.edges| == |s.edges| + 1
      && t.edges[n].reg0 == s.edges[n].reg0 && t.edges[n].reg1 == s.edges[n].reg1
      && (forall x :: t.edges[n].Ep(x) == if Half(n, x) == a || Half(n, x) == b then Some(v) else s.edges[n].Ep(x))
      && (t.edges[n].clips == if t.edges[n].Done() then 1 else 0)
      && t.edges[|s.edges|] == CircleEdge(s, k, v).0
  {
    assert s.line[k] in s.line && s.line[k + 1] in s.line;
  }

  lemma CircleKeepsRegions(s: Sweep, k: nat, v: Point, l: bool, r: bool)
    requires Inv(s) && k + 1 < |s.line| && (l ==> k > 0) && s.line[k] in s.queued
    ensures KeepsRegions(s, CircleStep(s, k, v, l, r))
    ensures CircleStep(s, k, v, l, r).edges[|s.edges|] == CircleEdge(s, k, v).0
  {
    forall n | 0 <= n < |s.edges|
      ensures var t := CircleStep(s, k, v, l, r);
        t.edges[n].reg0 == s.edges[n].reg0 && t.edges[n].reg1 == s.edges[n].reg1
    {
      CircleStepEdges(s, k, v, l, r, n);
    }
  }

  /** The halves that stay in the line still lack their vertex. */
  lemma StillOpen(s: Sweep, k: nat, v: Point, h: Half)
    requires Inv(s) && k + 1 < |s.line| && h in s.line[..k] + s.line[k + 2..]
    ensures h.edge < |s.edges| && WithVertex(s, k, v)[h.edge].Ep(h.side) == None
  {
    hide ArcChain, EventsOk, ClippedWhenDone;
    StaysInLine(s.line, k, h);
    assert s.line[k] in s.line && s.line[k + 1] in s.line;
    assert s.edges[h.edge].Ep(h.side) == None by {
      assert Half(h.edge, h.side) == h;
    }
  }

  lemma StaysInLine(line: seq<Half>, k: nat, h: Half)
    requires Distinct(line) && k + 1 < |line| && h in line[..k] + line[k + 2..]
    ensures h in line && h != line[k] && h != line[k + 1]
  {
    var rest := line[..k] + line[k + 2..];
    var i :| 0 <= i < |rest| && rest[i] == h;
    assert line[if i < k then i else i + 2] == h;
  }

  lemma CircleStepChain(s: Sweep, k: nat, v: Point, l: bool, r: bool)
    requires Inv(s) && k + 1 < |s.line| && (l ==> k > 0) && s.line[k] in s.queued
    ensures var t := CircleStep(s, k, v, l, r); AllInRange(t) && ArcChain(t) && Distinct(t.line)
  {
    hide EndsOpen, ClippedWhenDone, ArcChain, EventsOk;
    var n, t, pm := |s.edges|, CircleStep(s, k, v, l, r), CircleEdge(s, k, v).1;
    MergeMembers(s.line, k, Half(n, pm));
    forall j | 0 <= j <= |t.line|
      ensures AllInRange(t) && RegionAfter(t, j) == RegionBefore(t, j)
    {
      CircleStepLink(s, k, v, l, r, j);
    }
    assert ArcChain(t) by {
      ChainFromLinks(t);
    }
    assert forall i :: 0 <= i < |s.line| ==> s.line[i].edge != n;
  }

  lemma ChainFromLinks(s: Sweep)
    requires AllInRange(s) && forall k :: 0 <= k <= |s.line| ==> RegionAfter(s, k) == RegionBefore(s, k)
    ensures ArcChain(s)
  {
  }

  lemma CircleStepInRange(s: Sweep, k: nat, v: Point, l: bool, r: bool)
    requires AllInRange(s) && Distinct(s.line) && k + 1 < |s.line| && (l ==> k > 0)
    ensures var t := CircleStep(s, k, v, l, r); |t.line| == |s.line| - 1 && AllInRange(t)
  {
    MergeMembers(s.line, k, Half(|s.edges|, CircleEdge(s, k, v).1));
  }

  lemma CircleStepLink(s: Sweep, k: nat, v: Point, l: bool, r: bool, j: nat)
    requires Inv(s) && k + 1 < |s.line| && (l ==> k > 0) && s.line[k] in s.queued && j < |s.line|
    ensures var t := CircleStep(s, k, v, l, r);
      |t.line| == |s.line| - 1 && AllInRange(t) && RegionAfter(t, j) == RegionBefore(t, j)
  {
    hide ArcChain, EndsOpen, EventsOk, ClippedWhenDone, Distinct, AllInRange;
    CircleStepInRange(s, k, v, l, r);
    CircleKeepsRegions(s, k, v, l, r);
    LinkAt(s, if j <= k then j else j + 1);
    CircleStepRegions(s, k, v, l, r, j);
  }

  lemma CircleStepRegions(s: Sweep, k: nat, v: Point, l: bool, r: bool, j: nat)
    requires AllInRange(s) && k + 1 < |s.line| && (l ==> k > 0) && j < |s.line|
    requires AllInRange(CircleStep(s, k, v, l, r)) && KeepsRegions(s, CircleStep(s, k, v, l, r))
    requires CircleStep(s, k, v, l, r).edges[|s.edges|] == CircleEdge(s, k, v).0
    ensures RegionAfter(CircleStep(s, k, v, l, r), j) == RegionAfter(s, if j <= k then j else j + 1)
    ensures RegionBefore(CircleStep(s, k, v, l, r), j) == RegionBefore(s, if j <= k then j else j + 1)
  {
    var t := CircleStep(s, k, v, l, r);
    if 0 < j <= k {
      assert t.line[j - 1] == s.line[j - 1];
      RegionsKept(s, t, s.line[j - 1]);
    } else if j > k + 1 {
      assert t.line[j - 1] == s.line[j];
      RegionsKept(s, t, s.line[j]);
    }
    if j < k {
      assert t.line[j] == s.line[j];
      RegionsKept(s, t, s.line[j]);
    } else if k < j < |t.line| {
      assert t.line[j] == s.line[j + 1];
      RegionsKept(s, t, s.line[j + 1]);
    }
  }

  lemma CircleStepEnds(s: Sweep, k: nat, v: Point, l: bool, r: bool)
    requires Inv(s) && k + 1 < |s.line| && (l ==> k > 0) && s.line[k] in s.queued
    ensures EndsOpen(CircleStep(s, k, v, l, r)) && ClippedWhenDone(CircleStep(s, k, v, l, r))
  {
    var n, t, pm := |s.edges|, CircleStep(s, k, v, l, r), CircleEdge(s, k, v).1;
    MergeMembers(s.line, k, Half(n, pm));
    forall m | 0 <= m < |t.edges|
      ensures (forall x :: t.edges[m].Ep(x) == None <==> Half(m, x) in t.line)
      ensures t.edges[m].clips == if t.edges[m].Done() then 1 else 0
    {
      hide CircleStep, ArcChain, EventsOk;
      CircleStepEdges(s, k, v, l, r, if m < n then m else 0);
    }
  }

  lemma CircleStepEvents(s: Sweep, k: nat, v: Point, l: bool, r: bool)
    requires AllInRange(s) && EventsOk(s) && Distinct(s.line)
    requires k + 1 < |s.line| && (l ==> k > 0) && (r ==> k + 2 < |s.line|) && s.line[k] in s.queued
    ensures EventsOk(CircleStep(s, k, v, l, r))
  {
    var n, t, pm := |s.edges|, CircleStep(s, k, v, l, r), CircleEdge(s, k, v).1;
    MergeMembers(s.line, k, Half(n, pm));
    forall i | 0 <= i < |t.line| && t.line[i] in t.queued
      ensures i + 1 < |t.line| && t.line[i + 1].edge != t.line[i].edge
    {
      CircleStepEvent(s, k, v, l, r, i);
    }
  }

  lemma CircleStepEvent(s: Sweep, k: nat, v: Point, l: bool, r: bool, i: nat)
    requires AllInRange(s) && EventsOk(s) && Distinct(s.line)
    requires k + 1 < |s.line| && (l ==> k > 0) && (r ==> k + 2 < |s.line|) && s.line[k] in s.queued
    requires var t := CircleStep(s, k, v, l, r); i < |t.line| && t.line[i] in t.queued
    ensures var t := CircleStep(s, k, v, l, r); i + 1 < |t.line| && t.line[i + 1].edge != t.line[i].edge
  {
    var n, t, pm := |s.edges|, CircleStep(s, k, v, l, r), CircleEdge(s, k, v).1;
    if i < k {
      assert t.line[i] == s.line[i] && InRange(s, s.line[i]);
      assert i + 1 < k ==> t.line[i + 1] == s.line[i + 1];
      if i + 1 < k && l && s.line[i] == s.line[k - 1] {
        assert false;
      }
    } else if i > k {
      assert t.line[i] == s.line[i + 1] && InRange(s, s.line[i + 1]);
      if l && s.line[i + 1] == s.line[k - 1] {
        assert false;
      }
      assert i + 1 < |t.line| ==> t.line[i + 1] == s.line[i + 2];
    } else {
      assert i + 1 < |t.line| ==> t.line[i + 1] == s.line[k + 2] && InRange(s, s.line[k + 2]);
    }
  }

  lemma CircleStepInv(s: Sweep, k: nat, v: Point, l: bool, r: bool)
    requires Inv(s) && k + 1 < |s.line| && (l ==> k > 0) && (r ==> k + 2 < |s.line|) && s.line[k] in s.queued
    ensures Inv(CircleStep(s, k, v, l, r))
  {
    hide ArcChain, EndsOpen, EventsOk, ClippedWhenDone, Distinct, CircleStep;
    CircleStepChain(s, k, v, l, r);
    CircleStepEnds(s, k, v, l, r);
    CircleStepEvents(s, k, v, l, r);
  }

  // ---- What the invariant is good for ----

  /**
   * An edge has been clipped, and given back to be used again, at most once, and only when neither half
   * refers to it any more.
   */
  lemma EdgeLifetime(s: Sweep, n: nat)
    requires Inv(s) && n < |s.edges|
    ensures s.edges[n].clips <= 1
    ensures s.edges[n].clips == 1 <==> Half(n, Le) !in s.line && Half(n, Re) !in s.line
  {
    assert s.edges[n].Ep(Le) == None <==> Half(n, Le) in s.line;
    assert s.edges[n].Ep(Re) == None <==> Half(n, Re) in s.line;
  }

  /** How often edge n has been clipped once the halves still in the line have been as well. */
  function FinalClips(s: Sweep, n: nat): nat
    requires n < |s.edges|
  {
    s.edges[n].clips + One(Half(n, Le) in s.line) + One(Half(n, Re) in s.line)
  }

  /** Every edge ever made is clipped, and twice only if both its halves have survived. */
  lemma EveryEdgeIsClipped(s: Sweep, n: nat)
    requires Inv(s) && n < |s.edges|
    ensures 1 <= FinalClips(s, n) <= 2
    ensures FinalClips(s, n) == 2 <==> Half(n, Le) in s.line && Half(n, Re) in s.line
  {
    EdgeLifetime(s, n);
  }

  /** How many halves of edge n are in the line. */
  function CountOf(halves: seq<Half>, n: nat): nat {
    if halves == [] then 0 else CountOf(halves[..|halves| - 1], n) + One(halves[|halves| - 1].edge == n)
  }

  lemma {:induction false} CountOfDistinct(halves: seq<Half>, n: nat)
    requires Distinct(halves)
    ensures CountOf(halves, n) == One(Half(n, Le) in halves) + One(Half(n, Re) in halves)
  {
    if halves != [] {
      var rest, last := halves[..|halves| - 1], halves[|halves| - 1];
      CountOfDistinct(rest, n);
      assert halves == rest + [last];
      assert last !in rest;
      match last.side
      case Le => assert last == Half(last.edge, Le);
      case Re => assert last == Half(last.edge, Re);
    }
  }

  // ---- Runs, whatever the geometry says ----

  datatype Step =
    | AtSite(k: nat, site: Site, leftMeets: bool, rightMeets: bool)
    | AtVertex(k: nat, v: Point, leftMeets: bool, rightMeets: bool)

  predicate Possible(s: Sweep, e: Step) {
    && AllInRange(s)
    && match e
       case AtSite(k, _, l, r) => k <= |s.line| && (l ==> k > 0) && (r ==> k < |s.line|)
       case AtVertex(k, _, l, r) =>
         k + 1 < |s.line| && s.line[k] in s.queued && (l ==> k > 0) && (r ==> k + 2 < |s.line|)
  }

  function After(s: Sweep, e: Step): Sweep
    requires Possible(s, e)
  {
    match e
    case AtSite(k, site, l, r) => SiteStep(s, k, site, l, r)
    case AtVertex(k, v, l, r) => CircleStep(s, k, v, l, r)
  }

  lemma StepInv(s: Sweep, e: Step)
    requires Inv(s) && Possible(s, e)
    ensures Inv(After(s, e)) && AllInRange(After(s, e))
    ensures |After(s, e).line| == if e.AtSite? then |s.line| + 2 else |s.line| - 1
  {
    hide SiteStep, CircleStep;
    match e
    case AtSite(k, site, l, r) =>
      SiteStepInv(s, k, site, l, r);
      SiteStepInRange(s, k, site, l, r);
    case AtVertex(k, v, l, r) =>
      CircleStepInv(s, k, v, l, r);
      CircleStepInRange(s, k, v, l, r);
  }

  // ---- Which event is taken ----

  predicate SiteComesBefore(site: Site, b: Event) {
    && b.vertex.Some?
    && (site.coord.y < b.ystar || (site.coord.y == b.ystar && site.coord.x < b.vertex.value.x))
  }

  /** Nothing is due before the point (x, ystar). */
  ghost predicate NoneBefore(due: map<Half, Event>, p: Point) {
    forall h | h in due ::
      due[h].vertex.Some? && !(due[h].ystar < p.y || (due[h].ystar == p.y && due[h].vertex.value.x < p.x))
  }

  /** The half at k is due at the vertex v, with the key p. */
  ghost predicate DueAt(line: seq<Half>, due: map<Half, Event>, k: nat, v: Point, p: Point) {
    k < |line| && line[k] in due && due[line[k]] == Event(Some(v), p.y) && v.x == p.x
  }

  /**
   * Of the next site and the events that are due, the step takes the first: a site if it comes before all of
   * them, or else an event that none comes before, at its vertex.
   */
  ghost predicate TakesFirst(s: Sweep, due: map<Half, Event>, next: Option<Site>, e: Step) {
    && due.Keys == s.queued
    && match e
       case AtSite(_, site, _, _) => next == Some(site) && forall h | h in due :: SiteComesBefore(site, due[h])
       case AtVertex(k, v, _, _) =>
         && k < |s.line| && s.line[k] in due && due[s.line[k]].vertex == Some(v)
         && (forall h | h in due :: due[h].vertex.Some? && !ComesBefore(due[h], due[s.line[k]]))
         && (next.Some? ==> !SiteComesBefore(next.value, due[s.line[k]]))
  }

  ghost predicate IsRun(states: seq<Sweep>, steps: seq<Step>, bottom: Site) {
    && |states| == |steps| + 1 && states[0] == Start(bottom)
    && forall i :: 0 <= i < |steps| ==> Possible(states[i], steps[i]) && states[i + 1] == After(states[i], steps[i])
  }

  function SitesIn(steps: seq<Step>): nat {
    if steps == [] then 0 else SitesIn(steps[..|steps| - 1]) + One(steps[|steps| - 1].AtSite?)
  }

  lemma TakesSite(s: Sweep, due: map<Half, Event>, site: Site, p: Point, e: Step)
    requires due.Keys == s.queued && e.AtSite? && e.site == site && (due == map[] || NoneBefore(due, p))
    requires due != map[] ==> site.coord.y < p.y || (site.coord.y == p.y && site.coord.x < p.x)
    ensures TakesFirst(s, due, Some(site), e)
  {
  }

  lemma TakesVertex(s: Sweep, due: map<Half, Event>, next: Option<Site>, p: Point, e: Step)
    requires due.Keys == s.queued && e.AtVertex? && NoneBefore(due, p)
    requires DueAt(s.line, due, e.k, e.v, p)
    requires next.Some? ==> !(next.value.coord.y < p.y || (next.value.coord.y == p.y && next.value.coord.x < p.x))
    ensures TakesFirst(s, due, next, e)
  {
  }

  /** The site that is next after these steps; the first of all is the bottom site. */
  function NextSite(sites: seq<Site>, done: seq<Step>): Option<Site> {
    var n := 1 + SitesIn(done);
    if n < |sites| then Some(sites[n]) else None
  }

  // ---- What the geometry decides ----

  /** What the sweep asks about the places of things; halves are known by the number of their edge and their side. */
  datatype Geometry = Geometry(
    rightOf: (nat, Side, Point) -> bool,
    meet: (nat, Side, nat, Side) -> Option<Point>,
    dist: (Point, Point) -> real)

  predicate Known(edges: seq<EdgeInfo>, line: seq<Half>) {
    forall i :: 0 <= i < |line| ==> line[i].edge < |edges|
  }

  /** Where the half at i meets its left neighbour: nowhere if they are not both there or share their second site. */
  function MeetingAt(g: Geometry, edges: seq<EdgeInfo>, line: seq<Half>, i: nat): (v: Option<Point>)
    requires Known(edges, line)
    ensures v.Some? ==> 0 < i < |line|
  {
    if 0 < i < |line| && edges[line[i - 1].edge].reg1 != edges[line[i].edge].reg1 then
      g.meet(line[i - 1].edge, line[i - 1].side, line[i].edge, line[i].side)
    else None
  }

  /**
   * When the half at i has become the right neighbour of the one in front of it, that one is due where the two
   * meet, as far above as this is from the given site.
   */
  function Scheduled(g: Geometry, edges: seq<EdgeInfo>, line: seq<Half>, due: map<Half, Event>, i: nat,
                     site: Site): map<Half, Event>
    requires Known(edges, line)
  {
    match MeetingAt(g, edges, line, i)
    case None => due
    case Some(p) => due[line[i - 1] := Event(Some(p), p.y + g.dist(p, site.coord))]
  }

  lemma ScheduledKeys(g: Geometry, edges: seq<EdgeInfo>, line: seq<Half>, due: map<Half, Event>, i: nat, site: Site)
    requires Known(edges, line)
    ensures Scheduled(g, edges, line, due, i, site).Keys ==
      due.Keys + (if MeetingAt(g, edges, line, i).Some? then {line[i - 1]} else {})
  {
  }

  /** The point is to the right of the half in front of k, and not to the right of the half at k. */
  predicate Between(g: Geometry, line: seq<Half>, k: nat, p: Point) {
    && k <= |line|
    && (k > 0 ==> g.rightOf(line[k - 1].edge, line[k - 1].side, p))
    && (k < |line| ==> !g.rightOf(line[k].edge, line[k].side, p))
  }

  /** A site falls where the geometry says, and new neighbours meet if it says so. */
  predicate Answers(g: Geometry, s: Sweep, e: Step)
    requires Inv(s) && Possible(s, e)
  {
    StepInv(s, e);
    var t := After(s, e);
    match e
    case AtSite(k, site, l, r) =>
      && Between(g, s.line, k, site.coord)
      && (l <==> MeetingAt(g, t.edges, t.line, k).Some?) && (r <==> MeetingAt(g, t.edges, t.line, k + 2).Some?)
    case AtVertex(k, _, l, r) =>
      (l <==> MeetingAt(g, t.edges, t.line, k).Some?) && (r <==> MeetingAt(g, t.edges, t.line, k + 1).Some?)
  }

  /**
   * When each half is due after the step: the two that end no more, and the left one of each new pair of
   * neighbours that meet at the place where they do.
   */
  function NextDue(g: Geometry, s: Sweep, due: map<Half, Event>, e: Step): map<Half, Event>
    requires Inv(s) && Possible(s, e)
  {
    StepInv(s, e);
    var t := After(s, e);
    match e
    case AtSite(k, site, _, _) =>
      Scheduled(g, t.edges, t.line, Scheduled(g, t.edges, t.line, due, k, site), k + 2, site)
    case AtVertex(k, v, _, _) =>
      var rest, bot := due - {s.line[k], s.line[k + 1]}, CircleEdge(s, k, v).0.reg0;
      Scheduled(g, t.edges, t.line, Scheduled(g, t.edges, t.line, rest, k, bot), k + 1, bot)
  }

  /** The step takes the first event, and the state and what is due change as the geometry says. */
  ghost predicate IsStep(g: Geometry, next: Option<Site>, s: Sweep, due: map<Half, Event>,
                         e: Step, t: Sweep, due': map<Half, Event>) {
    && Inv(s) && Possible(s, e) && TakesFirst(s, due, next, e) && Answers(g, s, e)
    && t == After(s, e) && due' == NextDue(g, s, due, e)
  }

  /** A sweep over the sites in order, from an empty line with nothing due. */
  ghost predicate IsSweep(g: Geometry, sites: seq<Site>, states: seq<Sweep>, steps: seq<Step>, dues: seq<map<Half, Event>>) {
    && |states| == |dues| == |steps| + 1 && sites != []
    && states[0] == Start(sites[0]) && dues[0] == map[]
    && forall i :: 0 <= i < |steps| ==>
         IsStep(g, NextSite(sites, steps[..i]), states[i], dues[i], steps[i], states[i + 1], dues[i + 1])
  }

  lemma LongerSweep(g: Geometry, sites: seq<Site>, states: seq<Sweep>, steps: seq<Step>, dues: seq<map<Half, Event>>,
                    e: Step, t: Sweep, due: map<Half, Event>)
    requires IsSweep(g, sites, states, steps, dues)
    requires IsStep(g, NextSite(sites, steps), states[|steps|], dues[|steps|], e, t, due)
    ensures IsSweep(g, sites, states + [t], steps + [e], dues + [due])
    ensures SitesIn(steps + [e]) == SitesIn(steps) + One(e.AtSite?)
  {
    hide IsStep, NextSite;
    var longer, ss, ds := steps + [e], states + [t], dues + [due];
    SitesOfLast(longer);
    assert longer[..|steps|] == steps;
    hide SitesIn;
    forall i | 0 <= i < |longer|
      ensures IsStep(g, NextSite(sites, longer[..i]), ss[i], ds[i], longer[i], ss[i + 1], ds[i + 1])
    {
      LongerStep(g, sites, states, steps, dues, e, t, due, i);
    }
  }

  lemma LongerStep(g: Geometry, sites: seq<Site>, states: seq<Sweep>, steps: seq<Step>, dues: seq<map<Half, Event>>,
                   e: Step, t: Sweep, due: map<Half, Event>, i: nat)
    requires IsSweep(g, sites, states, steps, dues) && i <= |steps|
    requires IsStep(g, NextSite(sites, steps), states[|steps|], dues[|steps|], e, t, due)
    ensures var longer, ss, ds := steps + [e], states + [t], dues + [due];
      IsStep(g, NextSite(sites, longer[..i]), ss[i], ds[i], longer[i], ss[i + 1], ds[i + 1])
  {
    hide IsStep, NextSite, IsSweep;
    SweepParts(g, sites, states, steps, dues);
    assert (steps + [e])[..i] == steps[..i];
    if i < |steps| {
      StepAt(g, sites, states, steps, dues, i);
    } else {
      assert steps[..i] == steps;
    }
  }

  lemma SweepIsRun(g: Geometry, sites: seq<Site>, states: seq<Sweep>, steps: seq<Step>, dues: seq<map<Half, Event>>)
    requires IsSweep(g, sites, states, steps, dues)
    ensures IsRun(states, steps, sites[0])
  {
    hide Possible, After, TakesFirst, Answers, NextDue, NextSite;
    forall i | 0 <= i < |steps|
      ensures Possible(states[i], steps[i]) && states[i + 1] == After(states[i], steps[i])
    {
      StepAt(g, sites, states, steps, dues, i);
    }
  }

  // ---- Sweeps of the same geometry ----

  /** No two halves are due at the same height and place. */
  ghost predicate NoTies(due: map<Half, Event>) {
    forall a, b | a in due && b in due && a != b :: ComesBefore(due[a], due[b]) || ComesBefore(due[b], due[a])
  }

  ghost predicate OnePlace(g: Geometry, line: seq<Half>, p: Point) {
    forall j: nat, k: nat :: Between(g, line, j, p) && Between(g, line, k, p) ==> j == k
  }

  /** Whether the new neighbours meet changes nothing but who has an event. */
  lemma AnswersElsewhere(s: Sweep, e: Step, f: Step)
    requires Possible(s, e) && Possible(s, f) && e.AtSite? == f.AtSite? && e.k == f.k
    requires if e.AtSite? then e.site == f.site else e.v == f.v
    ensures After(s, e).line == After(s, f).line && After(s, e).edges == After(s, f).edges
  {
  }

  /** Without ties, the geometry alone decides on each step. */
  lemma StepIsDetermined(g: Geometry, next: Option<Site>, s: Sweep, due: map<Half, Event>,
                         e: Step, t: Sweep, due': map<Half, Event>, f: Step, u: Sweep, due'': map<Half, Event>)
    requires IsStep(g, next, s, due, e, t, due') && IsStep(g, next, s, due, f, u, due'')
    requires NoTies(due) && (next.Some? ==> OnePlace(g, s.line, next.value.coord))
    ensures e == f && t == u && due' == due''
  {
    hide After, NextDue, MeetingAt;
    if e.AtVertex? {
      assert s.line[e.k] == s.line[f.k];
    }
    assert e.AtSite? == f.AtSite? && e.k == f.k;
    AnswersElsewhere(s, e, f);
  }

  /**
   * So where no two events tie, and each site has one place to fall, the geometry and the sites have one sweep:
   * any two agree as far as both go, and if nothing is left at the end of either they are the same.
   */
  lemma {:induction false} SweepIsDetermined(g: Geometry, sites: seq<Site>,
      states: seq<Sweep>, steps: seq<Step>, dues: seq<map<Half, Event>>,
      states': seq<Sweep>, steps': seq<Step>, dues': seq<map<Half, Event>>, n: nat)
    requires IsSweep(g, sites, states, steps, dues) && IsSweep(g, sites, states', steps', dues')
    requires n <= |steps| && n <= |steps'|
    requires forall i :: 0 <= i < n ==> NoTies(dues[i])
    requires forall i, site :: 0 <= i < n && site in sites ==> OnePlace(g, states[i].line, site.coord)
    ensures states[..n + 1] == states'[..n + 1] && steps[..n] == steps'[..n] && dues[..n + 1] == dues'[..n + 1]
  {
    hide IsStep, IsSweep, NextSite, NoTies, OnePlace;
    SweepParts(g, sites, states, steps, dues);
    SweepParts(g, sites, states', steps', dues');
    SweepStarts(g, sites, states, steps, dues);
    SweepStarts(g, sites, states', steps', dues');
    if n > 0 {
      var m := n - 1;
      SweepIsDetermined(g, sites, states, steps, dues, states', steps', dues', m);
      assert states[m] == states[..n][m] && dues[m] == dues[..n][m];
      assert states'[m] == states'[..n][m] && dues'[m] == dues'[..n][m];
      var next := NextSite(sites, steps[..m]);
      NextIsSite(sites, steps[..m]);
      StepAt(g, sites, states, steps, dues, m);
      StepAt(g, sites, states', steps', dues', m);
      StepIsDetermined(g, next, states[m], dues[m], steps[m], states[n], dues[n], steps'[m], states'[n], dues'[n]);
      assert states[..n + 1] == states[..n] + [states[n]] && states'[..n + 1] == states'[..n] + [states'[n]];
      assert dues[..n + 1] == dues[..n] + [dues[n]] && dues'[..n + 1] == dues'[..n] + [dues'[n]];
      assert steps[..n] == steps[..m] + [steps[m]] && steps'[..n] == steps'[..m] + [steps'[m]];
    }
  }

  lemma SweepStarts(g: Geometry, sites: seq<Site>, states: seq<Sweep>, steps: seq<Step>, dues: seq<map<Half, Event>>)
    requires IsSweep(g, sites, states, steps, dues)
    ensures states[0] == Start(sites[0]) && dues[0] == map[]
  {
    hide IsStep;
  }

  lemma NextIsSite(sites: seq<Site>, done: seq<Step>)
    ensures NextSite(sites, done).Some? ==> NextSite(sites, done).value in sites
  {
  }

  /** Nothing is left to do: no site, and no event. */
  predicate IsOver(sites: seq<Site>, steps: seq<Step>, dues: seq<map<Half, Event>>) {
    dues != [] && dues[|dues| - 1] == map[] && NextSite(sites, steps).None?
  }

  lemma WholeSweepIsDetermined(g: Geometry, sites: seq<Site>,
      states: seq<Sweep>, steps: seq<Step>, dues: seq<map<Half, Event>>,
      states': seq<Sweep>, steps': seq<Step>, dues': seq<map<Half, Event>>)
    requires IsSweep(g, sites, states, steps, dues) && IsSweep(g, sites, states', steps', dues')
    requires IsOver(sites, steps, dues) && IsOver(sites, steps', dues')
    requires forall i :: 0 <= i < |steps| ==> NoTies(dues[i])
    requires forall i, site :: 0 <= i < |steps| && site in sites ==> OnePlace(g, states[i].line, site.coord)
    ensures states == states' && steps == steps' && dues == dues'
  {
    hide IsSweep, NoTies, OnePlace, NextSite;
    SweepParts(g, sites, states, steps, dues);
    SweepParts(g, sites, states', steps', dues');
    var n := if |steps| <= |steps'| then |steps| else |steps'|;
    SweepIsDetermined(g, sites, states, steps, dues, states', steps', dues', n);
    assert dues[n] == dues[..n + 1][n] && dues'[n] == dues'[..n + 1][n];
    assert steps[..n] == steps || steps'[..n] == steps';
    if n < |steps| {
      StillGoing(g, sites, states, steps, dues, n);
    }
    if n < |steps'| {
      StillGoing(g, sites, states', steps', dues', n);
    }
    assert states[..n + 1] == states && states'[..n + 1] == states' && steps[..n] == steps && steps'[..n] == steps';
    assert dues[..n + 1] == dues && dues'[..n + 1] == dues';
  }

  /** A sweep goes on only with a site or an event. */
  lemma StillGoing(g: Geometry, sites: seq<Site>, states: seq<Sweep>, steps: seq<Step>, dues: seq<map<Half, Event>>, n: nat)
    requires IsSweep(g, sites, states, steps, dues) && n < |steps|
    ensures n < |dues| && (NextSite(sites, steps[..n]).Some? || dues[n] != map[])
  {
    hide IsSweep, NextSite, After, NextDue, Answers;
    SweepParts(g, sites, states, steps, dues);
    StepAt(g, sites, states, steps, dues, n);
  }

  /** The sites of the steps, in order. */
  function SitesOf(steps: seq<Step>): seq<Site> {
    if steps == [] then []
    else
      var last := steps[|steps| - 1];
      SitesOf(steps[..|steps| - 1]) + (if last.AtSite? then [last.site] else [])
  }

  /** So the sites are met in the order given. */
  lemma {:induction false} SitesInOrder(g: Geometry, sites: seq<Site>,
      states: seq<Sweep>, steps: seq<Step>, dues: seq<map<Half, Event>>)
    requires IsSweep(g, sites, states, steps, dues)
    ensures 1 + SitesIn(steps) <= |sites| && SitesOf(steps) == sites[1..1 + SitesIn(steps)]
    decreases |steps|
  {
    hide IsStep, IsSweep;
    SweepParts(g, sites, states, steps, dues);
    if steps != [] {
      var n := |steps| - 1;
      ShorterSweep(g, sites, states, steps, dues, n);
      SitesInOrder(g, sites, states[..n + 1], steps[..n], dues[..n + 1]);
      StepAt(g, sites, states, steps, dues, n);
      StepTakesNext(g, NextSite(sites, steps[..n]), states[n], dues[n], steps[n], states[n + 1], dues[n + 1]);
      SitesOfLast(steps);
      OneMoreSite(sites, SitesIn(steps[..n]), steps[n]);
    }
  }

  lemma SitesOfLast(steps: seq<Step>)
    requires steps != []
    ensures var n := |steps| - 1;
      && SitesIn(steps) == SitesIn(steps[..n]) + One(steps[n].AtSite?)
      && SitesOf(steps) == SitesOf(steps[..n]) + (if steps[n].AtSite? then [steps[n].site] else [])
  {
  }

  lemma OneMoreSite(sites: seq<Site>, k: nat, last: Step)
    requires 1 + k <= |sites| && (last.AtSite? ==> 1 + k < |sites| && last.site == sites[1 + k])
    ensures sites[1..1 + k] + (if last.AtSite? then [last.site] else []) == sites[1..1 + k + One(last.AtSite?)]
  {
  }

  lemma SweepParts(g: Geometry, sites: seq<Site>, states: seq<Sweep>, steps: seq<Step>, dues: seq<map<Half, Event>>)
    requires IsSweep(g, sites, states, steps, dues)
    ensures |states| == |dues| == |steps| + 1 && sites != []
  {
    hide IsStep;
  }

  lemma StepAt(g: Geometry, sites: seq<Site>, states: seq<Sweep>, steps: seq<Step>, dues: seq<map<Half, Event>>, i: nat)
    requires IsSweep(g, sites, states, steps, dues) && i < |steps|
    ensures IsStep(g, NextSite(sites, steps[..i]), states[i], dues[i], steps[i], states[i + 1], dues[i + 1])
  {
    hide IsStep, NextSite;
  }

  lemma ShorterSweep(g: Geometry, sites: seq<Site>, states: seq<Sweep>, steps: seq<Step>, dues: seq<map<Half, Event>>, n: nat)
    requires IsSweep(g, sites, states, steps, dues) && n <= |steps|
    ensures IsSweep(g, sites, states[..n + 1], steps[..n], dues[..n + 1])
  {
    hide IsStep, NextSite;
    var less, ss, ds := steps[..n], states[..n + 1], dues[..n + 1];
    forall i | 0 <= i < n
      ensures IsStep(g, NextSite(sites, less[..i]), ss[i], ds[i], less[i], ss[i + 1], ds[i + 1])
    {
      assert less[..i] == steps[..i];
      StepAt(g, sites, states, steps, dues, i);
    }
  }

  lemma StepTakesNext(g: Geometry, next: Option<Site>, s: Sweep, due: map<Half, Event>, e: Step, t: Sweep, due': map<Half, Event>)
    requires IsStep(g, next, s, due, e, t, due')
    ensures e.AtSite? ==> next == Some(e.site)
  {
  }

  /**
   * In every reachable state of every sweep: the arcs chain up, events are of halves in the line with a right
   * neighbour on another edge, and the number of steps taken so far is bounded by the sites met.
   */
  lemma {:induction false} EveryRun(states: seq<Sweep>, steps: seq<Step>, bottom: Site)
    requires IsRun(states, steps, bottom)
    ensures Inv(states[|steps|])
    ensures |steps| + |states[|steps|].line| == 3 * SitesIn(steps)
    decreases |steps|
  {
    hide SiteStep, CircleStep;
    if steps == [] {
      StartInv(bottom);
    } else {
      var n := |steps| - 1;
      EveryRun(states[..n + 1], steps[..n], bottom);
      StepInv(states[n], steps[n]);
    }
  }

  lemma StartInv(bottom: Site)
    ensures Inv(Start(bottom))
  {
  }

  /** While there is a circle event, its half has a right neighbour to vanish with. */
  lemma EventHasNeighbour(s: Sweep, h: Half) returns (k: nat)
    requires Inv(s) && h in s.queued
    ensures k + 1 < |s.line| && s.line[k] == h && s.line[k + 1].edge != h.edge
  {
    k :| 0 <= k < |s.line| && s.line[k] == h;
  }
}
