/** Jobs run by worker threads, whose completions are run by the thread that submitted them. */
module TaskPool {
  import opened Common

  /** A job and what is to be called when it is done. */
  datatype Task = Task(job: nat, onComplete: nat)

  /** How far a worker thread is: in its job, about to report it, or done. */
  datatype Worker = Running | JobDone | Reported

  /** How far the submission under way is. The thread runs before the task is in the map. */
  datatype Submitting = NoTask | Started(task: Task) | Inserted

  /** A call of `pump`: the ids it has still to handle, the first of which may have its completion running. */
  datatype Batch = Batch(rest: seq<int>, calling: bool)

  datatype Event = JobFinished(id: int) | Called(id: int, onComplete: nat)

  /**
   * The variables of the pool, the threads, and the control state of the thread that submits and batches.
   * `submitted` and `log` record what happened.
   */
  datatype State = State(
    nextTaskId: nat, taskMap: map<int, Task>, completed: seq<int>,
    workers: map<int, Worker>, submitting: Submitting, batches: seq<Batch>, thrown: bool,
    submitted: seq<Task>, log: seq<Event>)

  const INITIAL := State(0, map[], [], map[], NoTask, [], false, [], [])

  /** The atomic steps, of workers (Finish and Report) and of the thread that submits and batches. */
  datatype Step =
    | Start(task: Task) | Insert | Increment
    | Finish(id: int) | Report(id: int)
    | Swap | Call | Erase | Return

  /** Calls are made outside the pool, or by a completion that a `pump` is calling. */
  predicate MayCall(s: State) {
    s.submitting == NoTask && !s.thrown && (s.batches == [] || s.batches[|s.batches| - 1].calling)
  }

  predicate Pumping(s: State, calling: bool) {
    s.submitting == NoTask && !s.thrown && s.batches != [] && s.batches[|s.batches| - 1].calling == calling
  }

  predicate Enabled(s: State, e: Step) {
    match e
    case Start(_) => MayCall(s)
    case Insert => s.submitting.Started?
    case Increment => s.submitting.Inserted?
    case Finish(id) => id in s.workers && s.workers[id] == Running
    case Report(id) => id in s.workers && s.workers[id] == JobDone
    case Swap => MayCall(s)
    case Call => Pumping(s, false) && Top(s).rest != []
    case Erase => Pumping(s, true) && Top(s).rest != []
    case Return => Pumping(s, false) && Top(s).rest == []
  }

  function Top(s: State): Batch
    requires s.batches != []
  {
    s.batches[|s.batches| - 1]
  }

  function WithTop(s: State, p: Batch): seq<Batch>
    requires s.batches != []
  {
    s.batches[..|s.batches| - 1] + [p]
  }

  function Do(s: State, e: Step): State
    requires Enabled(s, e)
  {
    match e
    case Start(task) =>
      s.(workers := s.workers[s.nextTaskId := Running], submitting := Started(task), submitted := s.submitted + [task])
    case Insert => s.(taskMap := s.taskMap[s.nextTaskId := s.submitting.task], submitting := Inserted)
    case Increment => s.(nextTaskId := s.nextTaskId + 1, submitting := NoTask)
    case Finish(id) => s.(workers := s.workers[id := JobDone], log := s.log + [JobFinished(id)])
    case Report(id) => s.(workers := s.workers[id := Reported], completed := s.completed + [id])
    case Swap => s.(batches := s.batches + [Batch(s.completed, false)], completed := [])
    case Call =>
      var id := Top(s).rest[0];
      if id !in s.taskMap then s.(thrown := true)
      else s.(batches := WithTop(s, Batch(Top(s).rest, true)), log := s.log + [Called(id, s.taskMap[id].onComplete)])
    case Erase =>
      s.(taskMap := s.taskMap - {Top(s).rest[0]}, batches := WithTop(s, Batch(Top(s).rest[1..], false)))
    case Return => s.(batches := s.batches[..|s.batches| - 1])
  }

  // ---- What every step keeps ----

  /** The ids that the calls of `pump` have still to handle. */
  ghost function Held(batches: seq<Batch>): multiset<int> {
    if batches == [] then multiset{} else Held(batches[..|batches| - 1]) + multiset(batches[|batches| - 1].rest)
  }

  /** The ids whose completion has been called, but which are still in the map. */
  ghost function InCall(batches: seq<Batch>): multiset<int> {
    if batches == [] then multiset{}
    else
      var p := batches[|batches| - 1];
      InCall(batches[..|batches| - 1]) + if p.calling && p.rest != [] then multiset{p.rest[0]} else multiset{}
  }

  ghost function Waiting(s: State): multiset<int> {
    multiset(s.completed) + Held(s.batches)
  }

  ghost function Calls(log: seq<Event>, id: int): nat {
    if log == [] then 0
    else Calls(log[..|log| - 1], id) + if log[|log| - 1].Called? && log[|log| - 1].id == id then 1 else 0
  }

  ghost predicate IsSubmitted(s: State, id: int) {
    0 <= id < |s.submitted|
  }

  ghost predicate Erased(s: State, id: int) {
    IsSubmitted(s, id) && id !in s.taskMap && !(s.submitting.Started? && id == s.nextTaskId)
  }

  ghost predicate Finished(s: State, id: int) {
    JobFinished(id) in s.log
  }

  ghost predicate IdInv(s: State, id: int) {
    && (id in s.workers <==> IsSubmitted(s, id))
    && (id in s.taskMap ==> IsSubmitted(s, id) && s.taskMap[id] == s.submitted[id])
    && (IsSubmitted(s, id) && s.workers[id] != Running ==> Finished(s, id))
    && (Erased(s, id) ==> s.workers[id] == Reported)
    && Waiting(s)[id] == One(IsSubmitted(s, id) && s.workers[id] == Reported && !Erased(s, id))
    && Calls(s.log, id) == One(Erased(s, id)) + InCall(s.batches)[id]
  }

  /** A completion is called after its job has finished, and is the one given with the job. */
  ghost predicate CallIsLate(s: State, i: nat)
    requires i < |s.log|
  {
    s.log[i].Called? ==>
      && IsSubmitted(s, s.log[i].id)
      && s.log[i].onComplete == s.submitted[s.log[i].id].onComplete
      && JobFinished(s.log[i].id) in s.log[..i]
  }

  ghost predicate BatchOk(s: State, i: nat)
    requires i < |s.batches|
  {
    && (s.batches[i].calling ==> s.batches[i].rest != [])
    && (i + 1 < |s.batches| || s.submitting != NoTask ==> s.batches[i].calling)
  }

  ghost predicate Inv(s: State) {
    && !s.thrown
    && |s.submitted| == s.nextTaskId + One(s.submitting != NoTask)
    && (s.submitting.Started? ==> s.submitting.task == s.submitted[s.nextTaskId] && s.nextTaskId !in s.taskMap)
    && (s.submitting.Started? ==> Held(s.batches)[s.nextTaskId] == 0)
    && (s.submitting.Inserted? ==> s.nextTaskId in s.taskMap)
    && (forall id :: IdInv(s, id))
    && (forall i | 0 <= i < |s.log| :: CallIsLate(s, i))
    && (forall i | 0 <= i < |s.batches| :: BatchOk(s, i))
  }

  lemma InitialInv()
    ensures Inv(INITIAL)
  {
    forall id: int
      ensures IdInv(INITIAL, id)
    {
    }
  }

  lemma Pushed(batches: seq<Batch>, p: Batch)
    ensures Held(batches + [p]) == Held(batches) + multiset(p.rest)
    ensures InCall(batches + [p]) == InCall(batches) + if p.calling && p.rest != [] then multiset{p.rest[0]} else multiset{}
  {
    assert (batches + [p])[..|batches|] == batches;
  }

  /** The last call of `pump`, taken off the others. */
  lemma Popped(batches: seq<Batch>)
    requires batches != []
    ensures var rest, p := batches[..|batches| - 1], batches[|batches| - 1];
      && batches == rest + [p]
      && Held(batches) == Held(rest) + multiset(p.rest)
      && InCall(batches) == InCall(rest) + if p.calling && p.rest != [] then multiset{p.rest[0]} else multiset{}
  {
  }

  lemma {:induction false} InCallIsHeld(batches: seq<Batch>, id: int)
    ensures InCall(batches)[id] <= Held(batches)[id]
  {
    if batches != [] {
      InCallIsHeld(batches[..|batches| - 1], id);
    }
  }

  lemma CallsAppend(log: seq<Event>, e: Event, id: int)
    ensures Calls(log + [e], id) == Calls(log, id) + One(e.Called? && e.id == id)
  {
    assert (log + [e])[..|log|] == log;
  }

  lemma FirstOf(x: seq<int>)
    requires x != []
    ensures multiset(x) == multiset{x[0]} + multiset(x[1..])
  {
    assert x == [x[0]] + x[1..];
  }

  lemma IdKeptBySubmit(s: State, e: Step, id: int)
    requires Inv(s) && Enabled(s, e) && (e.Start? || e.Insert? || e.Increment?)
    ensures IdInv(Do(s, e), id)
  {
    hide Held, InCall, Calls;
    assert IdInv(s, id);
    assert IdInv(s, s.nextTaskId);
  }

  lemma IdKeptByWorker(s: State, e: Step, id: int)
    requires Inv(s) && Enabled(s, e) && (e.Finish? || e.Report?)
    ensures IdInv(Do(s, e), id)
  {
    hide Held, InCall, Calls;
    assert IdInv(s, id);
    assert IdInv(s, e.id);
    if e.Finish? {
      CallsAppend(s.log, JobFinished(e.id), id);
    }
  }

  lemma IdKeptBySwapAndReturn(s: State, e: Step, id: int)
    requires Inv(s) && Enabled(s, e) && (e.Swap? || e.Return?)
    ensures IdInv(Do(s, e), id)
  {
    hide Held, InCall, Calls;
    assert IdInv(s, id);
    if e.Swap? {
      Pushed(s.batches, Batch(s.completed, false));
    } else {
      Popped(s.batches);
    }
  }

  /** What the pump is about to handle is in the map, and has not been called. */
  lemma TopIsThere(s: State)
    requires Inv(s) && s.batches != [] && Top(s).rest != []
    ensures var id := Top(s).rest[0];
      && id in s.taskMap && IsSubmitted(s, id) && id in s.workers && s.workers[id] == Reported
      && Waiting(s)[id] == 1 && InCall(s.batches)[id] == One(Top(s).calling)
  {
    hide Held, InCall, Calls;
    var id := Top(s).rest[0];
    var below := s.batches[..|s.batches| - 1];
    assert IdInv(s, id) && BatchOk(s, |s.batches| - 1);
    Popped(s.batches);
    FirstOf(Top(s).rest);
    InCallIsHeld(below, id);
  }

  lemma IdKeptByCall(s: State, id: int)
    requires Inv(s) && Enabled(s, Call)
    ensures Do(s, Call).thrown == false && IdInv(Do(s, Call), id)
  {
    hide Held, InCall, Calls;
    assert IdInv(s, id);
    TopIsThere(s);
    var below, called := s.batches[..|s.batches| - 1], Top(s).rest[0];
    Popped(s.batches);
    Pushed(below, Batch(Top(s).rest, true));
    CallsAppend(s.log, Called(called, s.taskMap[called].onComplete), id);
  }

  lemma IdKeptByErase(s: State, id: int)
    requires Inv(s) && Enabled(s, Erase)
    ensures IdInv(Do(s, Erase), id)
  {
    hide Held, InCall, Calls;
    assert IdInv(s, id);
    TopIsThere(s);
    Popped(s.batches);
    Pushed(s.batches[..|s.batches| - 1], Batch(Top(s).rest[1..], false));
    FirstOf(Top(s).rest);
  }

  lemma IdKept(s: State, e: Step, id: int)
    requires Inv(s) && Enabled(s, e)
    ensures IdInv(Do(s, e), id)
  {
    hide IdInv, Inv, Do, Enabled;
    match e
    case Start(_) => IdKeptBySubmit(s, e, id);
    case Insert => IdKeptBySubmit(s, e, id);
    case Increment => IdKeptBySubmit(s, e, id);
    case Finish(_) => IdKeptByWorker(s, e, id);
    case Report(_) => IdKeptByWorker(s, e, id);
    case Swap => IdKeptBySwapAndReturn(s, e, id);
    case Return => IdKeptBySwapAndReturn(s, e, id);
    case Call => IdKeptByCall(s, id);
    case Erase => IdKeptByErase(s, id);
  }

  lemma LogKept(s: State, e: Step)
    requires Inv(s) && Enabled(s, e)
    ensures forall i | 0 <= i < |Do(s, e).log| :: CallIsLate(Do(s, e), i)
  {
    hide Held, InCall, Calls, Waiting;
    var t := Do(s, e);
    if e.Call? {
      TopIsThere(s);
      assert IdInv(s, Top(s).rest[0]);
    }
    forall i | 0 <= i < |t.log|
      ensures CallIsLate(t, i)
    {
      if i < |s.log| {
        assert CallIsLate(s, i) && t.log[..i] == s.log[..i];
      } else {
        assert t.log[..i] == s.log;
      }
    }
  }

  lemma BatchesKept(s: State, e: Step)
    requires Inv(s) && Enabled(s, e)
    ensures forall i | 0 <= i < |Do(s, e).batches| :: BatchOk(Do(s, e), i)
  {
    hide Held, InCall, Calls, IdInv, CallIsLate;
    var t := Do(s, e);
    forall i | 0 <= i < |t.batches|
      ensures BatchOk(t, i)
    {
      if i < |s.batches| {
        assert BatchOk(s, i);
      }
    }
  }

  /** Every step keeps the invariant; in particular no completion is missing from the map. */
  lemma DoInv(s: State, e: Step)
    requires Inv(s) && Enabled(s, e)
    ensures Inv(Do(s, e))
  {
    hide Held, InCall, Calls, CallIsLate, BatchOk;
    var t := Do(s, e);
    forall id
      ensures IdInv(t, id)
    {
      IdKept(s, e, id);
    }
    LogKept(s, e);
    BatchesKept(s, e);
    assert IdInv(s, s.nextTaskId);
    if e.Call? {
      IdKeptByCall(s, 0);
    }
  }

  // ---- Over whole runs ----

  ghost predicate CanRun(s: State, steps: seq<Step>)
    decreases |steps|
  {
    steps == [] || (Enabled(s, steps[0]) && CanRun(Do(s, steps[0]), steps[1..]))
  }

  ghost function Run(s: State, steps: seq<Step>): State
    requires CanRun(s, steps)
    decreases |steps|
  {
    if steps == [] then s else Run(Do(s, steps[0]), steps[1..])
  }

  lemma {:induction false} RunInv(s: State, steps: seq<Step>)
    requires Inv(s) && CanRun(s, steps)
    ensures Inv(Run(s, steps))
    decreases |steps|
  {
    hide Inv;
    if steps != [] {
      DoInv(s, steps[0]);
      RunInv(Do(s, steps[0]), steps[1..]);
    }
  }

  /**
   * Whatever the interleaving: no completion is called twice, each is called after its own job has finished,
   * and looking a completion up never fails.
   */
  lemma CalledAtMostOnceAfterItsJob(steps: seq<Step>, id: int)
    requires CanRun(INITIAL, steps)
    ensures var s := Run(INITIAL, steps);
      && !s.thrown
      && Calls(s.log, id) <= 1
      && (forall i | 0 <= i < |s.log| :: CallIsLate(s, i))
  {
    hide Held, InCall, Calls, CallIsLate;
    InitialInv();
    RunInv(INITIAL, steps);
    var s := Run(INITIAL, steps);
    assert IdInv(s, id);
    InCallIsHeld(s.batches, id);
  }

  lemma CompletedAreInTheMap(s: State)
    requires Inv(s) && s.submitting == NoTask && s.completed != []
    ensures s.completed[0] in s.taskMap
  {
    hide Calls, CallIsLate;
    assert IdInv(s, s.completed[0]);
    assert s.completed[0] in multiset(s.completed);
    assert s.completed[0] in Waiting(s);
  }

  /** When nothing is left in the map and no call is under way, all that was submitted has been completed once. */
  lemma EmptyMapMeansAllCompleted(s: State, id: int)
    requires Inv(s) && s.taskMap == map[] && s.batches == [] && s.submitting == NoTask
    ensures |s.submitted| == s.nextTaskId && s.completed == []
    ensures Calls(s.log, id) == One(0 <= id < s.nextTaskId)
    ensures 0 <= id < s.nextTaskId ==> id in s.workers && s.workers[id] == Reported
  {
    hide Calls, CallIsLate;
    assert IdInv(s, id);
    if s.completed != [] {
      CompletedAreInTheMap(s);
    }
  }

  lemma AfterAnyRunEmptyMapMeansAllCompleted(steps: seq<Step>, id: int)
    requires CanRun(INITIAL, steps)
    ensures var s := Run(INITIAL, steps);
      s.taskMap == map[] && MayCall(s) && s.batches == [] ==> Calls(s.log, id) == One(0 <= id < |s.submitted|)
  {
    hide Calls, Inv;
    InitialInv();
    RunInv(INITIAL, steps);
    var s := Run(INITIAL, steps);
    if s.taskMap == map[] && MayCall(s) && s.batches == [] {
      EmptyMapMeansAllCompleted(s, id);
    }
  }

  /** A job that has reported is handled once: it is in one place, and its task is in the map or on its way there. */
  lemma WaitingAreDistinct(steps: seq<Step>, id: int)
    requires CanRun(INITIAL, steps)
    ensures var s := Run(INITIAL, steps);
      && Waiting(s)[id] <= 1
      && (id in Waiting(s) ==> id in s.taskMap || (s.submitting.Started? && id == s.nextTaskId))
      && (id in Held(s.batches) ==> id in s.taskMap)
      && (id in s.workers && s.workers[id] == Reported && id in s.taskMap ==> id in Waiting(s))
  {
    hide Calls, CallIsLate, Held, InCall;
    InitialInv();
    RunInv(INITIAL, steps);
    var s := Run(INITIAL, steps);
    assert IdInv(s, id);
  }

  ghost predicate Reaches(s: State, t: State) {
    exists steps :: CanRun(s, steps) && Run(s, steps) == t
  }

  lemma ReachesItself(s: State)
    ensures Reaches(s, s)
  {
    assert CanRun(s, []) && Run(s, []) == s;
  }

  lemma {:induction false} RunThenStep(s: State, steps: seq<Step>, e: Step)
    requires CanRun(s, steps) && Enabled(Run(s, steps), e)
    ensures CanRun(s, steps + [e]) && Run(s, steps + [e]) == Do(Run(s, steps), e)
    decreases |steps|
  {
    hide Enabled, Do;
    if steps == [] {
      assert (steps + [e])[1..] == [];
    } else {
      RunThenStep(Do(s, steps[0]), steps[1..], e);
      assert (steps + [e])[1..] == steps[1..] + [e];
    }
  }

  lemma ReachesOneMore(s: State, t: State, e: Step)
    requires Reaches(s, t) && Enabled(t, e)
    ensures Reaches(s, Do(t, e))
  {
    hide Enabled, Do, CanRun, Run;
    var steps :| CanRun(s, steps) && Run(s, steps) == t;
    RunThenStep(s, steps, e);
  }

  lemma {:induction false} RunThenRun(s: State, a: seq<Step>, b: seq<Step>)
    requires CanRun(s, a) && CanRun(Run(s, a), b)
    ensures CanRun(s, a + b) && Run(s, a + b) == Run(Run(s, a), b)
    decreases |a|
  {
    hide Enabled, Do;
    if a == [] {
      assert a + b == b;
    } else {
      RunThenRun(Do(s, a[0]), a[1..], b);
      assert (a + b)[1..] == a[1..] + b;
    }
  }

  lemma ReachesFurther(s: State, t: State, u: State)
    requires Reaches(s, t) && Reaches(t, u)
    ensures Reaches(s, u)
  {
    hide Enabled, Do, CanRun, Run;
    var a :| CanRun(s, a) && Run(s, a) == t;
    var b :| CanRun(t, b) && Run(t, b) == u;
    RunThenRun(s, a, b);
  }

  /** What has been erased stays so. */
  lemma {:induction false} ErasedStays(s: State, steps: seq<Step>, id: int)
    requires Inv(s) && CanRun(s, steps) && Erased(s, id)
    ensures Erased(Run(s, steps), id)
    decreases |steps|
  {
    hide Inv;
    if steps != [] {
      ErasedStaysOnce(s, steps[0], id);
      DoInv(s, steps[0]);
      ErasedStays(Do(s, steps[0]), steps[1..], id);
    }
  }

  lemma ErasedStaysOnce(s: State, e: Step, id: int)
    requires Inv(s) && Enabled(s, e) && Erased(s, id)
    ensures Erased(Do(s, e), id)
  {
    hide Held, InCall, Calls, CallIsLate, BatchOk, IdInv;
  }

  lemma ReachesKeepsErased(s: State, t: State)
    requires Inv(s) && Reaches(s, t)
    ensures forall id | Erased(s, id) :: Erased(t, id)
  {
    hide Inv, CanRun, Run, Erased;
    var steps :| CanRun(s, steps) && Run(s, steps) == t;
    forall id | Erased(s, id)
      ensures Erased(t, id)
    {
      ErasedStays(s, steps, id);
    }
  }

  lemma Moves(from: State, s: State, e: Step)
    requires Inv(s) && Reaches(from, s) && Enabled(s, e)
    ensures Inv(Do(s, e)) && Reaches(from, Do(s, e))
  {
    DoInv(s, e);
    ReachesOneMore(from, s, e);
  }

  // ---- The pool ----

  /** What happens where the pool does not decide: workers move on, and a completion uses the pool. */
  datatype Choice = Choice(moves: seq<int>, submits: seq<Task>, pumps: bool)

  const NOTHING := Choice([], [], false)

  ghost predicate AllReported(s: State) {
    forall id | id in s.workers :: s.workers[id] == Reported
  }

  lemma SameWorkers(s: State, t: State)
    requires s.workers == t.workers
    ensures AllReported(s) == AllReported(t)
  {
  }

  lemma WorkersAreSubmitted(s: State)
    requires Inv(s)
    ensures forall id | id in s.workers :: 0 <= id <= s.nextTaskId
  {
    hide Waiting, Calls, CallIsLate, BatchOk;
    forall id | id in s.workers
      ensures 0 <= id <= s.nextTaskId
    {
      assert IdInv(s, id);
    }
  }

  /** A choice has been used, if there was one. */
  predicate Used(before: seq<Choice>, after: seq<Choice>) {
    |after| <= |before| && (before != [] ==> |after| < |before|)
  }

  /** Once all jobs have been reported and all reports taken, nothing is left in the map. */
  lemma NothingLeft(s: State)
    requires Inv(s) && MayCall(s) && s.batches == [] && AllReported(s) && s.completed == []
    ensures s.taskMap == map[]
  {
    hide Calls, CallIsLate;
    forall id
      ensures id !in s.taskMap
    {
      assert IdInv(s, id);
    }
  }

  /**
   * The pool with its threads. `script` is what the workers and the completions will do; once it has run out,
   * every job ends and completions leave the pool alone.
   */
  class Pool {
    var nextTaskId: nat
    var taskMap: map<int, Task>
    var completedTasks: seq<int>
    var workers: map<int, Worker>
    var script: seq<Choice>
    ghost var submitting: Submitting
    ghost var batches: seq<Batch>
    ghost var submitted: seq<Task>
    ghost var log: seq<Event>

    ghost function Now(): State
      reads this
    {
      State(nextTaskId, taskMap, completedTasks, workers, submitting, batches, false, submitted, log)
    }

    constructor (script: seq<Choice>)
      ensures Now() == INITIAL && this.script == script
    {
      nextTaskId, taskMap, completedTasks, workers := 0, map[], [], map[];
      submitting, batches, submitted, log := NoTask, [], [], [];
      this.script := script;
    }

    /** A worker moves on, if it has not reported: its job ends, or it puts its id with the others under the lock. */
    method RunTask(id: int)
      requires Inv(Now())
      modifies this`completedTasks, this`workers, this`log
      ensures Inv(Now()) && Reaches(old(Now()), Now())
      ensures old(id in workers && workers[id] == Running) ==> Now() == Do(old(Now()), Finish(id))
      ensures old(id in workers && workers[id] == JobDone) ==> Now() == Do(old(Now()), Report(id))
      ensures old(id !in workers || workers[id] == Reported) ==> Now() == old(Now())
    {
      hide Inv, Reaches, Waiting;
      ReachesItself(Now());
      if id in workers && workers[id] == Running {
        Moves(Now(), Now(), Finish(id));
        workers := workers[id := JobDone];
        log := log + [JobFinished(id)];
      } else if id in workers && workers[id] == JobDone {
        Moves(Now(), Now(), Report(id));
        completedTasks := completedTasks + [id];
        workers := workers[id := Reported];
      }
    }

    /** Workers move on, in any order. */
    method RunWorkers(moves: seq<int>)
      requires Inv(Now())
      modifies this`completedTasks, this`workers, this`log
      ensures Inv(Now()) && Reaches(old(Now()), Now())
      ensures old(completedTasks) <= completedTasks
    {
      hide Inv, Reaches;
      ghost var from := Now();
      ReachesItself(Now());
      for i := 0 to |moves|
        invariant Inv(Now()) && Reaches(from, Now())
        invariant from.completed <= completedTasks
      {
        ghost var before := Now();
        RunTask(moves[i]);
        ReachesFurther(from, before, Now());
      }
    }

    /** Every job ends, and is reported. */
    method FinishAll()
      requires Inv(Now())
      modifies this`completedTasks, this`workers, this`log
      ensures Inv(Now()) && Reaches(old(Now()), Now())
      ensures old(completedTasks) <= completedTasks
      ensures AllReported(Now())
    {
      hide Inv, Reaches;
      ghost var from := Now();
      ReachesItself(Now());
      WorkersAreSubmitted(Now());
      for id := 0 to nextTaskId + 1
        invariant Inv(Now()) && Reaches(from, Now())
        invariant from.completed <= completedTasks
        invariant workers.Keys == from.workers.Keys
        invariant forall k | k in workers && k < id :: workers[k] == Reported
      {
        ghost var before := Now();
        RunTask(id);
        ghost var between := Now();
        RunTask(id);
        ReachesFurther(from, before, between);
        ReachesFurther(from, between, Now());
      }
    }

    /** The workers go on for a while, between two steps of the thread that uses the pool. */
    method Interfere() returns (c: Choice)
      requires Inv(Now())
      modifies this`completedTasks, this`workers, this`log, this`script
      ensures Inv(Now()) && Reaches(old(Now()), Now())
      ensures old(completedTasks) <= completedTasks
      ensures old(script) == [] ==> script == [] && AllReported(Now()) && c == NOTHING
      ensures old(script) != [] ==> script == old(script)[1..]
    {
      if script == [] {
        FinishAll();
        c := NOTHING;
      } else {
        c, script := script[0], script[1..];
        RunWorkers(c.moves);
      }
    }

    /** The thread of the job starts before the task is in the map. */
    method Submit(job: nat, onComplete: nat)
      requires Inv(Now()) && MayCall(Now())
      modifies this
      ensures Inv(Now()) && Reaches(old(Now()), Now()) && MayCall(Now())
      ensures submitted == old(submitted) + [Task(job, onComplete)] && nextTaskId == old(nextTaskId) + 1
      ensures taskMap == old(taskMap)[old(nextTaskId) := Task(job, onComplete)]
      ensures batches == old(batches) && |script| <= old(|script|)
    {
      hide Inv, Reaches;
      ghost var from := Now();
      ReachesItself(from);
      var t := Task(job, onComplete);
      Moves(from, Now(), Start(t));
      workers := workers[nextTaskId := Running];
      submitting, submitted := Started(t), submitted + [t];
      ghost var started := Now();
      var _ := Interfere();
      ReachesFurther(from, started, Now());
      Moves(from, Now(), Insert);
      taskMap := taskMap[nextTaskId := t];
      submitting := Inserted;
      Moves(from, Now(), Increment);
      nextTaskId := nextTaskId + 1;
      submitting := NoTask;
    }
  
    /** Takes what has been reported, and completes it: each id is looked up, called and erased. */
    method Pump()
      requires Inv(Now()) && MayCall(Now())
      modifies this
      ensures Inv(Now()) && Reaches(old(Now()), Now()) && MayCall(Now())
      ensures batches == old(batches) && Used(old(script), script)
      ensures forall i | 0 <= i < old(|completedTasks|) :: Erased(Now(), old(completedTasks)[i])
      ensures old(script) == [] ==> AllReported(Now()) && completedTasks == [] && submitted == old(submitted)
      decreases |script|, 2
    {
      hide Inv, Reaches, Erased, AllReported;
      ghost var from := Now();
      ghost var s0 := script;
      var completed := Take();
      for i := 0 to |completed|
        invariant Inv(Now()) && Reaches(from, Now()) && submitting == NoTask
        invariant batches == from.batches + [Batch(completed[i..], false)]
        invariant Used(s0, script)
        invariant forall k | 0 <= k < i :: Erased(Now(), completed[k])
        invariant s0 == [] ==> AllReported(Now()) && completedTasks == [] && submitted == from.submitted
      {
        ghost var before := Now();
        Complete(completed[i], completed[i..]);
        ReachesKeepsErased(before, Now());
        ReachesFurther(from, before, Now());
      }
      ghost var last := Now();
      Leave();
      ReachesKeepsErased(last, Now());
      ReachesFurther(from, last, Now());
      SameWorkers(last, Now());
      assert forall i | 0 <= i < |from.completed| :: from.completed[i] == completed[i];
    }

    ghost method Leave()
      requires Inv(Now()) && submitting == NoTask && batches != [] && Top(Now()) == Batch([], false)
      modifies this`batches
      ensures Inv(Now()) && Reaches(old(Now()), Now()) && MayCall(Now())
      ensures batches == old(batches[..|batches| - 1])
    {
      hide Reaches;
      ReachesItself(Now());
      Moves(Now(), Now(), Return);
      ghost var from := Now();
      batches := batches[..|batches| - 1];
      assert |batches| > 0 ==> BatchOk(from, |batches| - 1);
    }

    /** Under the lock, the ids that have been reported are swapped for none. */
    method Take() returns (completed: seq<int>)
      requires Inv(Now()) && MayCall(Now())
      modifies this`completedTasks, this`workers, this`log, this`script, this`batches
      ensures Inv(Now()) && Reaches(old(Now()), Now())
      ensures old(completedTasks) <= completed && completedTasks == []
      ensures batches == old(batches) + [Batch(completed, false)]
      ensures Used(old(script), script)
      ensures old(script) == [] ==> AllReported(Now())
    {
      hide Inv, Reaches, AllReported;
      ghost var from := Now();
      var _ := Interfere();
      ghost var before := Now();
      Moves(from, Now(), Swap);
      completed := completedTasks;
      completedTasks := [];
      batches := batches + [Batch(completed, false)];
      SameWorkers(before, Now());
    }

    /** One turn of the loop of `Pump`. */
    method Complete(t: int, ghost rest: seq<int>)
      requires Inv(Now()) && submitting == NoTask
      requires batches != [] && Top(Now()) == Batch(rest, false) && rest != [] && rest[0] == t
      modifies this
      ensures Inv(Now()) && Reaches(old(Now()), Now()) && submitting == NoTask
      ensures batches == WithTop(old(Now()), Batch(rest[1..], false)) && |script| <= |old(script)|
      ensures Erased(Now(), t)
      ensures old(script) == [] && old(AllReported(Now()) && completedTasks == []) ==>
        AllReported(Now()) && completedTasks == [] && submitted == old(submitted)
      decreases |script|, 1
    {
      hide Inv, Reaches;
      ghost var from := Now();
      ReachesItself(from);
      LookUp(t, rest);
      ghost var calling := Now();
      OnComplete();
      ReachesFurther(from, calling, Now());
      ghost var called := Now();
      Forget(t, rest);
      ReachesFurther(from, called, Now());
    }

    /** The entry is there, and its completion is called. */
    method LookUp(t: int, ghost rest: seq<int>)
      requires Inv(Now()) && submitting == NoTask
      requires batches != [] && Top(Now()) == Batch(rest, false) && rest != [] && rest[0] == t
      modifies this`log, this`batches
      ensures Inv(Now()) && Reaches(old(Now()), Now()) && t in taskMap
      ensures batches == WithTop(old(Now()), Batch(rest, true))
      ensures log == old(log) + [Called(t, taskMap[t].onComplete)]
    {
      hide Inv, Reaches;
      ghost var from := Now();
      ReachesItself(from);
      TopIsThere(from);
      Moves(from, from, Call);
      log := log + [Called(t, taskMap[t].onComplete)];
      batches := WithTop(from, Batch(rest, true));
    }

    /** The entry goes, and with it the thread, which has come to its end. */
    method Forget(t: int, ghost rest: seq<int>)
      requires Inv(Now()) && submitting == NoTask
      requires batches != [] && Top(Now()) == Batch(rest, true) && rest != [] && rest[0] == t
      modifies this`taskMap, this`batches
      ensures Inv(Now()) && Reaches(old(Now()), Now())
      ensures batches == WithTop(old(Now()), Batch(rest[1..], false))
      ensures Erased(Now(), t)
    {
      hide Inv, Reaches;
      ghost var from := Now();
      ReachesItself(from);
      TopIsThere(from);
      assert from.workers[t] == Reported;
      Moves(from, from, Erase);
      taskMap := taskMap - {t};
      batches := WithTop(from, Batch(rest[1..], false));
    }

    /** What a completion does: it may submit tasks, and it may pump. */
    method OnComplete()
      requires Inv(Now()) && MayCall(Now())
      modifies this
      ensures Inv(Now()) && Reaches(old(Now()), Now()) && MayCall(Now())
      ensures batches == old(batches) && |script| <= |old(script)|
      ensures old(script) == [] && old(AllReported(Now()) && completedTasks == []) ==>
        AllReported(Now()) && completedTasks == [] && submitted == old(submitted) && taskMap == old(taskMap)
      decreases |script|, 0
    {
      hide Inv, Reaches;
      if script == [] {
        ReachesItself(Now());
        return;
      }
      ghost var from := Now();
      var c := Interfere();
      for i := 0 to |c.submits|
        invariant Inv(Now()) && Reaches(from, Now()) && MayCall(Now())
        invariant batches == from.batches && |script| < |old(script)|
      {
        ghost var before := Now();
        Submit(c.submits[i].job, c.submits[i].onComplete);
        ReachesFurther(from, before, Now());
      }
      if c.pumps {
        ghost var before := Now();
        Pump();
        ReachesFurther(from, before, Now());
      }
    }

    /** The pool shuts down: it pumps until the map is empty. By then everything has been completed once. */
    method Shutdown()
      requires Inv(Now()) && MayCall(Now()) && batches == []
      modifies this
      ensures Inv(Now()) && Reaches(old(Now()), Now())
      ensures taskMap == map[] && completedTasks == [] && batches == []
      ensures forall id :: Calls(log, id) == One(0 <= id < nextTaskId)
    {
      hide Inv, Reaches;
      ghost var from := Now();
      ReachesItself(from);
      while taskMap != map[]
        invariant Inv(Now()) && Reaches(from, Now()) && MayCall(Now()) && batches == []
        decreases |script|, |taskMap|
      {
        ghost var before := Now();
        ghost var quiet := script == [];
        Pump();
        ReachesFurther(from, before, Now());
        if quiet {
          NothingLeft(Now());
        }
      }
      forall id: int
        ensures Calls(log, id) == One(0 <= id < nextTaskId)
      {
        EmptyMapMeansAllCompleted(Now(), id);
      }
      EmptyMapMeansAllCompleted(Now(), 0);
    }
  }
}
