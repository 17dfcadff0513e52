/**
 * What holds in every sweep over sites sorted by height: which arcs make up the line, which site of an edge is
 * its first, and what the time of each event is.
 */
module SweepFacts {
  import opened Common
  import opened SweepTypes
  import opened SweepModel

  // ---- The arcs of the line ----

  /** The sites whose arcs make up the line, from left to right. */
  function Arcs(s: Sweep): (arcs: seq<Site>)
    requires AllInRange(s)
    ensures |arcs| == |s.line| + 1
  {
    seq(|s.line| + 1, k requires 0 <= k <= |s.line| => RegionAfter(s, k))
  }

  /** Each half has the arc in front of it to its left and the one behind it to its right; the first and last are the bottom's. */
  lemma HalvesSeparateArcs(s: Sweep, k: nat)
    requires Inv(s) && k < |s.line|
    ensures LeftReg(s, s.line[k]) == Arcs(s)[k] && RightReg(s, s.line[k]) == Arcs(s)[k + 1]
    ensures Arcs(s)[0] == Arcs(s)[|s.line|] == s.bottom
  {
    LinkAt(s, k);
    LinkAt(s, |s.line|);
  }

  /** A site splits the arc it falls on in two, with its own in between. */
  lemma ArcsAfterSite(s: Sweep, k: nat, site: Site, l: bool, r: bool)
    requires Inv(s) && k <= |s.line| && (l ==> k > 0) && (r ==> k < |s.line|)
    ensures AllInRange(SiteStep(s, k, site, l, r))
    ensures Arcs(SiteStep(s, k, site, l, r)) == Arcs(s)[..k + 1] + [site] + Arcs(s)[k..]
  {
    hide SiteStep, RegionAfter, Inv;
    Parts(s);
    SiteStepInRange(s, k, site, l, r);
    forall j: nat | j <= |s.line| + 2
      ensures RegionAfter(SiteStep(s, k, site, l, r), j) == (Arcs(s)[..k + 1] + [site] + Arcs(s)[k..])[j]
    {
      SiteStepAfter(s, k, site, l, r, j);
    }
  }

  /** At a vertex the arc between the two halves is gone, and nothing else. */
  lemma ArcsAfterVertex(s: Sweep, k: nat, v: Point, l: bool, r: bool)
    requires Inv(s) && k + 1 < |s.line| && (l ==> k > 0) && s.line[k] in s.queued
    ensures AllInRange(CircleStep(s, k, v, l, r))
    ensures Arcs(CircleStep(s, k, v, l, r)) == Arcs(s)[..k + 1] + Arcs(s)[k + 2..]
  {
    hide CircleStep, RegionAfter, Inv;
    Parts(s);
    CircleStepInRange(s, k, v, l, r);
    CircleKeepsRegions(s, k, v, l, r);
    forall j: nat | j < |s.line|
      ensures RegionAfter(CircleStep(s, k, v, l, r), j) == (Arcs(s)[..k + 1] + Arcs(s)[k + 2..])[j]
    {
      CircleStepRegions(s, k, v, l, r, j);
    }
  }

  lemma Parts(s: Sweep)
    requires Inv(s)
    ensures AllInRange(s) && Distinct(s.line)
  {
  }

  // ---- The order of the sites of an edge ----

  predicate Sorted(sites: seq<Site>) {
    forall i, j :: 0 <= i <= j < |sites| ==> sites[i].coord.y <= sites[j].coord.y
  }

  /** No site of an edge is higher than y, and none is higher than the other site of its edge if that is its second. */
  ghost predicate OrderedBelow(s: Sweep, y: real) {
    && s.bottom.coord.y <= y
    && forall n :: 0 <= n < |s.edges| ==> s.edges[n].reg0.coord.y <= s.edges[n].reg1.coord.y <= y
  }

  /** The right half of an edge made at a vertex is only in the line if the left region is strictly the higher. */
  ghost predicate RightHalvesFall(s: Sweep, steps: seq<Step>) {
    forall h :: h in s.line && h.edge < |steps| && h.edge < |s.edges| && steps[h.edge].AtVertex? && h.side == Re ==>
      s.edges[h.edge].reg0.coord.y < s.edges[h.edge].reg1.coord.y
  }

  lemma RegionBelow(s: Sweep, k: nat, y: real)
    requires AllInRange(s) && k <= |s.line| && OrderedBelow(s, y)
    ensures RegionAfter(s, k).coord.y <= y && RegionBefore(s, k).coord.y <= y
  {
    assert k > 0 ==> InRange(s, s.line[k - 1]);
    assert k < |s.line| ==> InRange(s, s.line[k]);
  }

  lemma SiteKeepsOrder(s: Sweep, steps: seq<Step>, k: nat, site: Site, l: bool, r: bool, y: real)
    requires Inv(s) && k <= |s.line| && (l ==> k > 0) && |s.edges| == |steps|
    requires OrderedBelow(s, y) && y <= site.coord.y && RightHalvesFall(s, steps)
    ensures var t := SiteStep(s, k, site, l, r);
      OrderedBelow(t, site.coord.y) && RightHalvesFall(t, steps + [AtSite(k, site, l, r)])
  {
    hide ArcChain, EndsOpen, EventsOk, ClippedWhenDone, Distinct;
    RegionBelow(s, k, y);
    SplitMembers(s.line, k, Half(|s.edges|, Le), Half(|s.edges|, Re));
  }

  lemma VertexKeepsOrder(s: Sweep, steps: seq<Step>, k: nat, v: Point, l: bool, r: bool, y: real)
    requires Inv(s) && k + 1 < |s.line| && (l ==> k > 0) && s.line[k] in s.queued && |s.edges| == |steps|
    requires OrderedBelow(s, y) && RightHalvesFall(s, steps)
    ensures var t := CircleStep(s, k, v, l, r);
      OrderedBelow(t, y) && RightHalvesFall(t, steps + [AtVertex(k, v, l, r)])
  {
    hide ArcChain, EndsOpen, EventsOk, ClippedWhenDone;
    RegionBelow(s, k, y);
    RegionBelow(s, k + 2, y);
    var n, t := |s.edges|, CircleStep(s, k, v, l, r);
    CircleKeepsRegions(s, k, v, l, r);
    MergeMembers(s.line, k, Half(n, CircleEdge(s, k, v).1));
    assert InRange(s, s.line[k]) && InRange(s, s.line[k + 1]);
    hide CircleStep, Inv;
    assert |t.edges| == n + 1;
  }

  lemma {:induction false} SweepKeepsOrder(g: Geometry, sites: seq<Site>,
      states: seq<Sweep>, steps: seq<Step>, dues: seq<map<Half, Event>>, i: nat)
    requires IsSweep(g, sites, states, steps, dues) && Sorted(sites) && i <= |steps|
    ensures i < |states| && Inv(states[i]) && |states[i].edges| == i
    ensures SitesIn(steps[..i]) < |sites| && OrderedBelow(states[i], sites[SitesIn(steps[..i])].coord.y)
    ensures RightHalvesFall(states[i], steps[..i])
  {
    hide IsStep, IsSweep, Inv, SiteStep, CircleStep, RightHalvesFall, SitesIn;
    SweepParts(g, sites, states, steps, dues);
    SweepStarts(g, sites, states, steps, dues);
    if i == 0 {
      StartInv(sites[0]);
      NothingMade(sites[0]);
      assert steps[..0] == [];
    } else {
      var n := i - 1;
      SweepKeepsOrder(g, sites, states, steps, dues, n);
      StepAt(g, sites, states, steps, dues, n);
      assert steps[..i] == steps[..n] + [steps[n]] && steps[..i][..n] == steps[..n];
      SitesOfLast(steps[..i]);
      var y := sites[SitesIn(steps[..n])].coord.y;
      OrderAfterStep(g, sites, steps[..n], states[n], dues[n], steps[n], states[i], dues[i], y);
    }
  }

  lemma NothingMade(bottom: Site)
    ensures SitesIn([]) == 0 && RightHalvesFall(Start(bottom), []) && OrderedBelow(Start(bottom), bottom.coord.y)
  {
  }

  lemma OrderAfterStep(g: Geometry, sites: seq<Site>, done: seq<Step>, s: Sweep, due: map<Half, Event>,
                       e: Step, t: Sweep, due': map<Half, Event>, y: real)
    requires IsStep(g, NextSite(sites, done), s, due, e, t, due') && Sorted(sites) && |s.edges| == |done|
    requires SitesIn(done) < |sites| && y == sites[SitesIn(done)].coord.y
    requires OrderedBelow(s, y) && RightHalvesFall(s, done)
    ensures Inv(t) && |t.edges| == |done| + 1
    ensures SitesIn(done) + One(e.AtSite?) < |sites|
    ensures OrderedBelow(t, sites[SitesIn(done) + One(e.AtSite?)].coord.y) && RightHalvesFall(t, done + [e])
  {
    hide Inv, SiteStep, CircleStep, RightHalvesFall, OrderedBelow, TakesFirst, Answers, NextDue, SitesIn;
    StepTakesNext(g, NextSite(sites, done), s, due, e, t, due');
    StepInv(s, e);
    match e
    case AtSite(k, site, l, r) =>
      SiteKeepsOrder(s, done, k, site, l, r, y);
      SiteStepInRange(s, k, site, l, r);
    case AtVertex(k, v, l, r) =>
      VertexKeepsOrder(s, done, k, v, l, r, y);
      CircleKeepsRegions(s, k, v, l, r);
  }

  /**
   * In every state of every sweep over sorted sites the first site of each edge is not the higher one. A left half
   * in the line has the lower region to its left, a right one to its right, and strictly so if the edge was
   * made at a vertex. Edge n is the one that step n has made.
   */
  lemma LowerSiteFirst(g: Geometry, sites: seq<Site>, states: seq<Sweep>, steps: seq<Step>, dues: seq<map<Half, Event>>, i: nat)
    requires IsSweep(g, sites, states, steps, dues) && Sorted(sites) && i <= |steps|
    ensures i < |states| && |states[i].edges| == i && AllInRange(states[i])
    ensures forall n :: 0 <= n < i ==> states[i].edges[n].reg0.coord.y <= states[i].edges[n].reg1.coord.y
    ensures forall k :: 0 <= k < |states[i].line| ==>
      var h := states[i].line[k];
      var left, right := LeftReg(states[i], h).coord.y, RightReg(states[i], h).coord.y;
      if h.side == Le then left <= right else left >= right && (steps[h.edge].AtVertex? ==> left > right)
  {
    hide IsSweep;
    SweepKeepsOrder(g, sites, states, steps, dues, i);
    SweepParts(g, sites, states, steps, dues);
    var s := states[i];
    forall k | 0 <= k < |s.line|
      ensures InRange(s, s.line[k])
      ensures var h := s.line[k];
        var left, right := LeftReg(s, h).coord.y, RightReg(s, h).coord.y;
        if h.side == Le then left <= right else left >= right && (steps[h.edge].AtVertex? ==> left > right)
    {
      assert InRange(s, s.line[k]) && s.line[k] in s.line;
      assert steps[..i][s.line[k].edge] == steps[s.line[k].edge];
    }
  }

  // ---- The times of the events ----

  /** What a time is measured to: the site of a site event, or the lower site of the edge made at a vertex. */
  predicate MeasuredTo(edges: seq<EdgeInfo>, steps: seq<Step>, n: nat, site: Site) {
    && n < |steps| && n < |edges|
    && if steps[n].AtSite? then site == steps[n].site
       else site in {edges[n].reg0, edges[n].reg1} && site.coord.y <= edges[n].reg0.coord.y && site.coord.y <= edges[n].reg1.coord.y
  }

  /**
   * The event of h is where it meets a half r of another edge with another second site, and is due as far above
   * as this is from a site of the newer of the two edges.
   */
  ghost predicate IsMeeting(g: Geometry, edges: seq<EdgeInfo>, steps: seq<Step>, h: Half, r: Half, site: Site, e: Event) {
    && h.edge < |edges| && r.edge < |edges| && edges[h.edge].reg1 != edges[r.edge].reg1
    && g.meet(h.edge, h.side, r.edge, r.side) == e.vertex && e.vertex.Some?
    && e.ystar == e.vertex.value.y + g.dist(e.vertex.value, site.coord)
    && MeasuredTo(edges, steps, if h.edge < r.edge then r.edge else h.edge, site)
  }

  ghost predicate TimesAreMeetings(g: Geometry, edges: seq<EdgeInfo>, steps: seq<Step>, due: map<Half, Event>) {
    forall h | h in due :: exists r, site :: IsMeeting(g, edges, steps, h, r, site, due[h])
  }

  lemma MeetingStays(g: Geometry, s: Sweep, steps: seq<Step>, t: Sweep, e: Step, h: Half, r: Half, site: Site, ev: Event)
    requires IsMeeting(g, s.edges, steps, h, r, site, ev) && KeepsRegions(s, t)
    ensures IsMeeting(g, t.edges, steps + [e], h, r, site, ev)
  {
  }

  /** One pair of neighbours, one of whose edges is the newest. */
  lemma ScheduledIsMeeting(g: Geometry, edges: seq<EdgeInfo>, line: seq<Half>, steps: seq<Step>, due: map<Half, Event>, i: nat, site: Site)
    requires Known(edges, line) && TimesAreMeetings(g, edges, steps, due) && |edges| == |steps| > 0
    requires 0 < i < |line| ==> line[i - 1].edge == |edges| - 1 || line[i].edge == |edges| - 1
    requires MeasuredTo(edges, steps, |edges| - 1, site)
    ensures TimesAreMeetings(g, edges, steps, Scheduled(g, edges, line, due, i, site))
  {
    var due' := Scheduled(g, edges, line, due, i, site);
    forall h | h in due'
      ensures exists r, at :: IsMeeting(g, edges, steps, h, r, at, due'[h])
    {
      if MeetingAt(g, edges, line, i).Some? && h == line[i - 1] {
        assert IsMeeting(g, edges, steps, h, line[i], site, due'[h]);
      } else {
        assert due'[h] == due[h];
      }
    }
  }

  lemma TimesAfterStep(g: Geometry, next: Option<Site>, done: seq<Step>, s: Sweep, due: map<Half, Event>,
                       e: Step, t: Sweep, due': map<Half, Event>)
    requires IsStep(g, next, s, due, e, t, due') && |s.edges| == |done| && TimesAreMeetings(g, s.edges, done, due)
    requires forall n :: 0 <= n < |t.edges| ==> t.edges[n].reg0.coord.y <= t.edges[n].reg1.coord.y
    ensures TimesAreMeetings(g, t.edges, done + [e], due')
  {
    hide Inv, SiteStep, CircleStep, TakesFirst, Answers, Scheduled, MeasuredTo, TimesAreMeetings;
    StepInv(s, e);
    NewHalves(s, e);
    match e
    case AtSite(k, site, l, r) =>
      TimesStay(g, s, done, t, e, due, due);
      ScheduledIsMeeting(g, t.edges, t.line, done + [e], due, k, site);
      ScheduledIsMeeting(g, t.edges, t.line, done + [e], Scheduled(g, t.edges, t.line, due, k, site), k + 2, site);
    case AtVertex(k, v, l, r) =>
      var rest, bot := due - {s.line[k], s.line[k + 1]}, CircleEdge(s, k, v).0.reg0;
      TimesStay(g, s, done, t, e, due, rest);
      ScheduledIsMeeting(g, t.edges, t.line, done + [e], rest, k, bot);
      ScheduledIsMeeting(g, t.edges, t.line, done + [e], Scheduled(g, t.edges, t.line, rest, k, bot), k + 1, bot);
  }

  /** The halves the step has put in are of the newest edge, and it is known what their times are measured to. */
  lemma NewHalves(s: Sweep, e: Step)
    requires Inv(s) && Possible(s, e)
    requires var t := After(s, e); forall n :: 0 <= n < |t.edges| ==> t.edges[n].reg0.coord.y <= t.edges[n].reg1.coord.y
    ensures var t := After(s, e);
      && KeepsRegions(s, t) && e.k < |t.line| && t.line[e.k].edge == |s.edges|
      && (e.AtSite? ==> e.k + 1 < |t.line| && t.line[e.k + 1].edge == |s.edges|)
      && forall done: seq<Step> | |done| == |s.edges| ::
           MeasuredTo(t.edges, done + [e], |s.edges|, if e.AtSite? then e.site else CircleEdge(s, e.k, e.v).0.reg0)
  {
    Parts(s);
    match e
    case AtSite(k, site, l, r) => SiteStepInRange(s, k, site, l, r);
    case AtVertex(k, v, l, r) =>
      CircleKeepsRegions(s, k, v, l, r);
      MergeMembers(s.line, k, Half(|s.edges|, CircleEdge(s, k, v).1));
  }

  lemma TimesStay(g: Geometry, s: Sweep, steps: seq<Step>, t: Sweep, e: Step, due: map<Half, Event>, rest: map<Half, Event>)
    requires TimesAreMeetings(g, s.edges, steps, due) && KeepsRegions(s, t)
    requires forall h | h in rest :: h in due && rest[h] == due[h]
    ensures TimesAreMeetings(g, t.edges, steps + [e], rest)
  {
    hide IsMeeting;
    forall h | h in rest
      ensures exists r, site :: IsMeeting(g, t.edges, steps + [e], h, r, site, rest[h])
    {
      var r, site :| IsMeeting(g, s.edges, steps, h, r, site, due[h]);
      MeetingStays(g, s, steps, t, e, h, r, site, due[h]);
    }
  }

  /** So in every sweep over sorted sites each event that is due is where two halves meet. */
  lemma {:induction false} DueTimesAreMeetings(g: Geometry, sites: seq<Site>,
      states: seq<Sweep>, steps: seq<Step>, dues: seq<map<Half, Event>>, i: nat)
    requires IsSweep(g, sites, states, steps, dues) && Sorted(sites) && i <= |steps|
    ensures i < |states| && i < |dues| && TimesAreMeetings(g, states[i].edges, steps[..i], dues[i])
  {
    hide IsStep, IsSweep, Inv, TimesAreMeetings;
    SweepParts(g, sites, states, steps, dues);
    SweepStarts(g, sites, states, steps, dues);
    if i == 0 {
      NothingIsDue(g, sites[0], steps[..0]);
    } else {
      var n := i - 1;
      DueTimesAreMeetings(g, sites, states, steps, dues, n);
      StepAt(g, sites, states, steps, dues, n);
      LowerSiteFirst(g, sites, states, steps, dues, n);
      LowerSiteFirst(g, sites, states, steps, dues, i);
      TimesAfterStep(g, NextSite(sites, steps[..n]), steps[..n], states[n], dues[n], steps[n], states[i], dues[i]);
      assert steps[..i] == steps[..n] + [steps[n]];
    }
  }

  lemma NothingIsDue(g: Geometry, bottom: Site, steps: seq<Step>)
    ensures TimesAreMeetings(g, Start(bottom).edges, steps, map[])
  {
  }

  /** Wherever two neighbours meet, the left one is due there. */
  ghost predicate MeetingsAreDue(g: Geometry, s: Sweep, due: map<Half, Event>)
    requires AllInRange(s)
  {
    forall k: nat :: k < |s.line| ==> MeetingIsDue(g, s.edges, s.line, due, k)
  }

  predicate MeetingIsDue(g: Geometry, edges: seq<EdgeInfo>, line: seq<Half>, due: map<Half, Event>, k: nat)
    requires Known(edges, line)
  {
    var v := MeetingAt(g, edges, line, k);
    v.Some? ==> line[k - 1] in due && due[line[k - 1]].vertex == v
  }

  /** What is scheduled for one pair is due, and that of the others stays. */
  lemma ScheduledIsDue(g: Geometry, edges: seq<EdgeInfo>, line: seq<Half>, due: map<Half, Event>, i: nat, site: Site, k: nat)
    requires Known(edges, line) && Distinct(line) && k < |line| && (k != i ==> MeetingIsDue(g, edges, line, due, k))
    ensures MeetingIsDue(g, edges, line, Scheduled(g, edges, line, due, i, site), k)
  {
  }

  /** A pair of neighbours that was one before still meets where it did. */
  lemma OldPair(g: Geometry, s: Sweep, t: Sweep, due: map<Half, Event>, rest: map<Half, Event>, j: nat, k: nat)
    requires AllInRange(s) && AllInRange(t) && KeepsRegions(s, t) && j < |s.line| && k < |t.line|
    requires MeetingIsDue(g, s.edges, s.line, due, j) && (j > 0 <==> k > 0)
    requires t.line[k] == s.line[j] && (j > 0 ==> t.line[k - 1] == s.line[j - 1])
    requires j > 0 && s.line[j - 1] in due ==> s.line[j - 1] in rest && rest[s.line[j - 1]] == due[s.line[j - 1]]
    ensures MeetingIsDue(g, t.edges, t.line, rest, k)
  {
    RegionsKept(s, t, s.line[j]);
    if j > 0 {
      RegionsKept(s, t, s.line[j - 1]);
      assert InRange(s, s.line[j]) && InRange(s, s.line[j - 1]);
    }
  }

  lemma SiteKeepsMeetings(g: Geometry, s: Sweep, due: map<Half, Event>, k: nat, site: Site, l: bool, r: bool)
    requires Inv(s) && k <= |s.line| && (l ==> k > 0) && (r ==> k < |s.line|) && MeetingsAreDue(g, s, due)
    ensures var t := SiteStep(s, k, site, l, r);
      && AllInRange(t)
      && MeetingsAreDue(g, t, Scheduled(g, t.edges, t.line, Scheduled(g, t.edges, t.line, due, k, site), k + 2, site))
  {
    hide MeetingAt, Scheduled, Inv, Distinct;
    Parts(s);
    var t, n := SiteStep(s, k, site, l, r), |s.edges|;
    SiteStepInv(s, k, site, l, r);
    Parts(t);
    SiteStepInRange(s, k, site, l, r);
    SplitMembers(s.line, k, Half(n, Le), Half(n, Re));
    var one := Scheduled(g, t.edges, t.line, due, k, site);
    var two := Scheduled(g, t.edges, t.line, one, k + 2, site);
    forall j: nat | j < |t.line|
      ensures MeetingIsDue(g, t.edges, t.line, two, j)
    {
      hide SiteStep, MeetingIsDue;
      if j < k {
        assert MeetingIsDue(g, s.edges, s.line, due, j);
        OldPair(g, s, t, due, due, j, j);
      } else if j == k + 1 {
        SameEdge(g, t.edges, t.line, due, j);
      } else if j > k + 2 {
        assert MeetingIsDue(g, s.edges, s.line, due, j - 2);
        OldPair(g, s, t, due, due, j - 2, j);
      }
      if j != k + 2 {
        ScheduledIsDue(g, t.edges, t.line, due, k, site, j);
      }
      ScheduledIsDue(g, t.edges, t.line, one, k + 2, site, j);
    }
  }

  /** Halves of one edge do not meet. */
  lemma SameEdge(g: Geometry, edges: seq<EdgeInfo>, line: seq<Half>, due: map<Half, Event>, k: nat)
    requires Known(edges, line) && 0 < k < |line| && line[k - 1].edge == line[k].edge
    ensures MeetingIsDue(g, edges, line, due, k)
  {
  }

  lemma VertexKeepsMeetings(g: Geometry, s: Sweep, due: map<Half, Event>, k: nat, v: Point, l: bool, r: bool, site: Site)
    requires Inv(s) && k + 1 < |s.line| && (l ==> k > 0) && (r ==> k + 2 < |s.line|) && s.line[k] in s.queued
    requires MeetingsAreDue(g, s, due)
    ensures var t, rest := CircleStep(s, k, v, l, r), due - {s.line[k], s.line[k + 1]};
      && AllInRange(t)
      && MeetingsAreDue(g, t, Scheduled(g, t.edges, t.line, Scheduled(g, t.edges, t.line, rest, k, site), k + 1, site))
  {
    hide MeetingAt, Scheduled, Inv, Distinct;
    Parts(s);
    var t, rest := CircleStep(s, k, v, l, r), due - {s.line[k], s.line[k + 1]};
    CircleStepInv(s, k, v, l, r);
    Parts(t);
    CircleKeepsRegions(s, k, v, l, r);
    MergeMembers(s.line, k, Half(|s.edges|, CircleEdge(s, k, v).1));
    var one := Scheduled(g, t.edges, t.line, rest, k, site);
    var two := Scheduled(g, t.edges, t.line, one, k + 1, site);
    forall j: nat | j < |t.line|
      ensures MeetingIsDue(g, t.edges, t.line, two, j)
    {
      hide CircleStep, MeetingIsDue, CircleEdge;
      if j < k {
        assert MeetingIsDue(g, s.edges, s.line, due, j);
        Apart(s.line, j, k);
        OldPair(g, s, t, due, rest, j, j);
      } else if j > k + 1 {
        assert MeetingIsDue(g, s.edges, s.line, due, j + 1);
        Apart(s.line, j + 1, k);
        OldPair(g, s, t, due, rest, j + 1, j);
      }
      if j != k + 1 {
        ScheduledIsDue(g, t.edges, t.line, rest, k, site, j);
      }
      ScheduledIsDue(g, t.edges, t.line, one, k + 1, site, j);
    }
  }

  lemma Apart(line: seq<Half>, j: nat, k: nat)
    requires Distinct(line) && k + 1 < |line| && j < |line| && (j < k || j > k + 2)
    ensures j > 0 ==> line[j - 1] != line[k] && line[j - 1] != line[k + 1]
  {
  }

  /** In every state of every sweep, if two neighbours meet then the left one is due, there. */
  lemma {:induction false} NoMeetingIsMissed(g: Geometry, sites: seq<Site>,
      states: seq<Sweep>, steps: seq<Step>, dues: seq<map<Half, Event>>, i: nat)
    requires IsSweep(g, sites, states, steps, dues) && i <= |steps|
    ensures i < |states| && i < |dues| && AllInRange(states[i]) && MeetingsAreDue(g, states[i], dues[i])
  {
    hide IsStep, IsSweep, Inv, MeetingsAreDue;
    SweepParts(g, sites, states, steps, dues);
    SweepStarts(g, sites, states, steps, dues);
    if i == 0 {
      NoNeighbours(g, sites[0]);
    } else {
      NoMeetingIsMissed(g, sites, states, steps, dues, i - 1);
      StepAt(g, sites, states, steps, dues, i - 1);
      MeetingsAfterStep(g, NextSite(sites, steps[..i - 1]), states[i - 1], dues[i - 1], steps[i - 1], states[i], dues[i]);
    }
  }

  lemma NoNeighbours(g: Geometry, bottom: Site)
    ensures AllInRange(Start(bottom)) && MeetingsAreDue(g, Start(bottom), map[])
  {
  }

  lemma MeetingsAfterStep(g: Geometry, next: Option<Site>, s: Sweep, due: map<Half, Event>, e: Step, t: Sweep, due': map<Half, Event>)
    requires IsStep(g, next, s, due, e, t, due') && AllInRange(s) && MeetingsAreDue(g, s, due)
    ensures AllInRange(t) && MeetingsAreDue(g, t, due')
  {
    hide Inv, SiteStep, CircleStep, TakesFirst, Answers, Scheduled, MeetingsAreDue;
    StepInv(s, e);
    match e
    case AtSite(k, site, l, r) => SiteKeepsMeetings(g, s, due, k, site, l, r);
    case AtVertex(k, v, l, r) => VertexKeepsMeetings(g, s, due, k, v, l, r, CircleEdge(s, k, v).0.reg0);
  }
}
