/** The order of completions: what waits for them stands in the order in which its jobs have reported. */
module TaskOrder {
  import opened Common
  import opened TaskPool

  /** The ids in the order in which their workers reported. */
  function Reports(steps: seq<Step>): seq<int> {
    if steps == [] then []
    else (if steps[0].Report? then [steps[0].id] else []) + Reports(steps[1..])
  }

  /** What the calls of `pump` have still to handle, the outermost first. */
  function Flat(batches: seq<Batch>): seq<int> {
    if batches == [] then [] else Flat(batches[..|batches| - 1]) + batches[|batches| - 1].rest
  }

  /** All ids that wait: those taken by a `pump`, and behind them those that none has taken yet. */
  function Queue(s: State): seq<int> {
    Flat(s.batches) + s.completed
  }

  ghost predicate Precedes(r: seq<int>, a: int, b: int) {
    exists i: nat, j: nat :: i < j < |r| && r[i] == a && r[j] == b
  }

  ghost predicate InOrder(q: seq<int>, r: seq<int>) {
    && (forall id | id in q :: id in r)
    && forall i: nat, j: nat | i < j < |q| :: Precedes(r, q[i], q[j])
  }

  lemma FlatLast(batches: seq<Batch>, p: Batch)
    ensures Flat(batches + [p]) == Flat(batches) + p.rest
  {
    assert (batches + [p])[..|batches|] == batches;
  }

  lemma OneMoreReport(q: seq<int>, r: seq<int>, id: int)
    requires InOrder(q, r)
    ensures InOrder(q + [id], r + [id])
  {
    var t, u := q + [id], r + [id];
    forall i: nat, j: nat | i < j < |t|
      ensures Precedes(u, t[i], t[j])
    {
      if j < |q| {
        assert Precedes(r, q[i], q[j]);
        var k: nat, l: nat :| k < l < |r| && r[k] == q[i] && r[l] == q[j];
        assert u[k] == t[i] && u[l] == t[j];
      } else {
        assert q[i] in r;
        var k: nat :| k < |r| && r[k] == q[i];
        assert u[k] == t[i] && u[|r|] == t[j];
      }
    }
  }

  lemma OneLess(a: seq<int>, b: seq<int>, c: seq<int>, r: seq<int>)
    requires InOrder(a + b + c, r) && b != []
    ensures InOrder(a + b[1..] + c, r)
  {
    var q, t := a + b + c, a + b[1..] + c;
    forall i: nat | i < |t|
      ensures t[i] == q[if i < |a| then i else i + 1]
    {
    }
    forall id | id in t
      ensures id in q
    {
      var i: nat :| i < |t| && t[i] == id;
    }
  }

  /** How a step changes what waits: a report goes to the end, what has been handled leaves, and else nothing moves. */
  lemma QueueAfter(s: State, e: Step, r: seq<int>)
    requires Enabled(s, e) && InOrder(Queue(s), r)
    ensures InOrder(Queue(Do(s, e)), if e.Report? then r + [e.id] else r)
  {
    hide InOrder;
    match e
    case Report(id) =>
      OneMoreReport(Queue(s), r, id);
      assert Flat(s.batches) + (s.completed + [id]) == Queue(s) + [id];
    case Swap =>
      FlatLast(s.batches, Batch(s.completed, false));
      assert Flat(s.batches) + s.completed + [] == Queue(s);
    case Call =>
      var below, top := s.batches[..|s.batches| - 1], Top(s);
      FlatLast(below, top);
      FlatLast(below, Batch(top.rest, true));
      assert s.batches == below + [top];
    case Erase =>
      var below, top := s.batches[..|s.batches| - 1], Top(s);
      FlatLast(below, top);
      FlatLast(below, Batch(top.rest[1..], false));
      assert s.batches == below + [top];
      OneLess(Flat(below), top.rest, s.completed, r);
    case Return =>
      var below, top := s.batches[..|s.batches| - 1], Top(s);
      FlatLast(below, top);
      assert s.batches == below + [top] && Flat(below) + [] == Flat(below);
    case _ =>
  }

  lemma {:induction false} RunKeepsOrder(s: State, steps: seq<Step>, r: seq<int>)
    requires CanRun(s, steps) && InOrder(Queue(s), r)
    ensures InOrder(Queue(Run(s, steps)), r + Reports(steps))
    decreases |steps|
  {
    hide InOrder, Queue, Enabled, Do;
    if steps == [] {
      assert r + [] == r;
    } else {
      var e := steps[0];
      QueueAfter(s, e, r);
      RunKeepsOrder(Do(s, e), steps[1..], if e.Report? then r + [e.id] else r);
      assert (if e.Report? then r + [e.id] else r) + Reports(steps[1..]) == r + Reports(steps);
    }
  }

  /**
   * Under every interleaving a `pump` handles what it has taken in the order in which it was reported, and a `pump`
   * called by a completion takes only what was reported after that.
   */
  lemma HandledInOrderOfReport(steps: seq<Step>, b: nat, i: nat, c: nat, j: nat)
    requires CanRun(INITIAL, steps)
    requires var batches := Run(INITIAL, steps).batches;
      b <= c < |batches| && i < |batches[b].rest| && j < |batches[c].rest| && (b < c || i < j)
    ensures var batches := Run(INITIAL, steps).batches; Precedes(Reports(steps), batches[b].rest[i], batches[c].rest[j])
  {
    hide Enabled, Do, Reports, CanRun, Run;
    NothingWaits();
    RunKeepsOrder(INITIAL, steps, []);
    assert [] + Reports(steps) == Reports(steps);
    TakenInOrder(Run(INITIAL, steps), Reports(steps), b, i, c, j);
  }

  /** So a completion that is called belongs to the first report of all that this `pump` still has to handle. */
  lemma FirstReportedIsCalled(steps: seq<Step>, j: nat)
    requires CanRun(INITIAL, steps) && Enabled(Run(INITIAL, steps), Call)
    requires 0 < j < |Top(Run(INITIAL, steps)).rest|
    ensures var s := Run(INITIAL, steps);
      var t := Do(s, Call);
      && |t.log| == |s.log| + 1 && t.log[|s.log|].Called?
      && Precedes(Reports(steps), t.log[|s.log|].id, Top(s).rest[j])
  {
    var s := Run(INITIAL, steps);
    InitialInv();
    RunInv(INITIAL, steps);
    TopIsThere(s);
    hide CanRun, Run, Inv, Precedes, Reports;
    HandledInOrderOfReport(steps, |s.batches| - 1, 0, |s.batches| - 1, j);
  }

  lemma NothingWaits()
    ensures InOrder(Queue(INITIAL), [])
  {
  }

  lemma TakenInOrder(s: State, r: seq<int>, b: nat, i: nat, c: nat, j: nat)
    requires InOrder(Queue(s), r) && b <= c < |s.batches| && (b < c || i < j)
    requires i < |s.batches[b].rest| && j < |s.batches[c].rest|
    ensures Precedes(r, s.batches[b].rest[i], s.batches[c].rest[j])
  {
    hide Precedes, Flat;
    var k, l := |Flat(s.batches[..b])| + i, |Flat(s.batches[..c])| + j;
    FlatAt(s.batches, b, i);
    FlatAt(s.batches, c, j);
    if b < c {
      FlatGrows(s.batches, b + 1, c);
      FlatLast(s.batches[..b], s.batches[b]);
      assert s.batches[..b + 1] == s.batches[..b] + [s.batches[b]];
    }
    assert Queue(s)[k] == s.batches[b].rest[i] && Queue(s)[l] == s.batches[c].rest[j];
  }

  lemma {:induction false} FlatAt(batches: seq<Batch>, b: nat, i: nat)
    requires b < |batches| && i < |batches[b].rest|
    ensures var k := |Flat(batches[..b])| + i; k < |Flat(batches)| && Flat(batches)[k] == batches[b].rest[i]
    decreases |batches|
  {
    var n := |batches| - 1;
    if b < n {
      FlatAt(batches[..n], b, i);
      assert batches[..n][..b] == batches[..b];
    }
  }

  lemma {:induction false} FlatGrows(batches: seq<Batch>, b: nat, c: nat)
    requires b <= c <= |batches|
    ensures |Flat(batches[..b])| <= |Flat(batches[..c])|
    decreases c
  {
    if b < c {
      FlatGrows(batches, b, c - 1);
      assert batches[..c][..c - 1] == batches[..c - 1];
    }
  }
}
