/** What any interleaving of recovering scanners does to the task of an executor that has stopped. */
module RecoveryLaws {
  import opened Json
  import opened Model
  import opened Reducer
  import EventLog
  import opened RunSpec
  import opened RunLaws
  import opened RunOutcomes
  import opened Recovery

  /** The claim excludes: nobody holds it while it is free, and no two scanners hold it. */
  predicate Exclusive(w: World) {
    && (!w.task.claimed ==> forall i :: 0 <= i < |w.scanners| ==> !Holds(w.scanners[i]))
    && (forall i, j :: 0 <= i < j < |w.scanners| ==> !(Holds(w.scanners[i]) && Holds(w.scanners[j])))
  }

  lemma StepKeepsExclusion(w: World, step: Step, timeout: nat)
    requires Exclusive(w)
    ensures Exclusive(Exec(w, step, timeout))
  {
    hide ValidModel, Plan;
  }

  /** At most one scanner is ever past the claim, even when bridge calls raise. */
  lemma {:induction false} AtMostOneHolder(w: World, steps: seq<Step>, timeout: nat)
    requires Exclusive(w)
    ensures Exclusive(RunWorld(w, steps, timeout))
    decreases |steps|
  {
    if steps != [] {
      AtMostOneHolder(w, steps[..|steps| - 1], timeout);
      StepKeepsExclusion(RunWorld(w, steps[..|steps| - 1], timeout), steps[|steps| - 1], timeout);
    }
  }

  /** The executor has stopped: the task is running, unclaimed, and nobody has begun to recover it. */
  predicate Stopped(w: World) {
    && w.task.status == Some(EventLog.Running) && !w.task.claimed
    && (w.task.model.Some? ==> ValidModel(w.task.model.value))
    && forall i :: 0 <= i < |w.scanners| ==> !Holds(w.scanners[i])
  }

  function PlanOf(t: Task): seq<Event> {
    Plan(t.lastSeq, t.model)
  }

  /** The number the hash shows once this much of the plan is noted. */
  function Noted(t: Task, plan: seq<Event>, k: nat): nat
    requires k <= |plan|
  {
    if k == 0 then t.lastSeq else plan[k - 1].seqNo
  }

  /** Nothing recovered yet: everything but the claim and the heartbeat's being listed is as the executor left it. */
  predicate Untouched(t0: Task, t: Task, calls: nat) {
    t == t0.(claimed := t.claimed, completions := t0.completions + calls)
  }

  /** The recovery is over: the whole plan is stored and the task has failed. */
  predicate Recovered(t0: Task, t: Task) {
    && t.log == t0.log + PlanOf(t0)
    && t.status == Some(EventLog.Failed)
    && t.lastSeq == PlanOf(t0)[|PlanOf(t0)| - 1].seqNo
    && t.completions == t0.completions + 1
    && t.model == t0.model
  }

  /** Some of the plan is stored, and some of that noted. */
  predicate Partway(t0: Task, t: Task, stored: nat, noted: nat) {
    && stored <= |PlanOf(t0)| && noted <= |PlanOf(t0)|
    && t == t0.(
      claimed := true,
      log := t0.log + PlanOf(t0)[..stored],
      lastSeq := Noted(t0, PlanOf(t0), noted),
      completions := t0.completions + 1)
  }

  /** What the claim's holder has done so far, by the phase it is in. */
  predicate HolderAt(t0: Task, t: Task, p: Stage) {
    var plan := PlanOf(t0);
    match p
    case Checking => Untouched(t0, t, 0) || Recovered(t0, t)
    case Reading => Untouched(t0, t, 1)
    case Modelling => Untouched(t0, t, 1) && t0.lastSeq == 0
    case Adding(queue) =>
      1 <= |queue| <= |plan| && queue == plan[|plan| - |queue|..] && Partway(t0, t, |plan| - |queue|, |plan| - |queue|)
    case Noting(queue) =>
      && 1 <= |queue| <= |plan| && queue == plan[|plan| - |queue|..]
      && Partway(t0, t, |plan| - |queue| + 1, |plan| - |queue|)
    case Marking => Partway(t0, t, |plan|, |plan|)
    case Forgetting => Recovered(t0, t)
    case Releasing => Untouched(t0, t, 0) || Recovered(t0, t)
    case Idle => false
    case Listed => false
  }

  /** Where the recovery that began from t0 stands. A claim nobody holds is one whose release raised. */
  predicate Progress(t0: Task, w: World) {
    && Exclusive(w)
    && ((forall i :: 0 <= i < |w.scanners| ==> !Holds(w.scanners[i])) ==>
      Untouched(t0, w.task, 0) || Recovered(t0, w.task))
    && forall i :: 0 <= i < |w.scanners| && Holds(w.scanners[i]) ==>
      w.task.claimed && HolderAt(t0, w.task, w.scanners[i])
  }

  predicate RunningTask(t0: Task) {
    t0.status == Some(EventLog.Running) && !t0.claimed && (t0.model.Some? ==> ValidModel(t0.model.value))
  }

  lemma AddOne(log: seq<Event>, plan: seq<Event>, k: nat)
    requires k < |plan|
    ensures log + plan[..k] + [plan[k]] == log + plan[..k + 1]
    ensures plan[k..][0] == plan[k]
  {
  }

  lemma AddingActs(t0: Task, t: Task, queue: seq<Event>, now: int, timeout: nat)
    requires RunningTask(t0) && HolderAt(t0, t, Adding(queue))
    ensures Act(t, Adding(queue), now, timeout).1 == Noting(queue)
    ensures HolderAt(t0, Act(t, Adding(queue), now, timeout).0, Noting(queue))
  {
    hide Plan, ValidModel, Noted;
    AddOne(t0.log, PlanOf(t0), |PlanOf(t0)| - |queue|);
  }

  lemma NotingActs(t0: Task, t: Task, queue: seq<Event>, now: int, timeout: nat)
    requires RunningTask(t0) && HolderAt(t0, t, Noting(queue))
    ensures
      var (t1, p1) := Act(t, Noting(queue), now, timeout);
      Holds(p1) && !p1.Releasing? && HolderAt(t0, t1, p1)
  {
    hide PlanOf, RunningTask, Partway;
    SuffixParts(PlanOf(t0), queue);
    NoteOne(t0, t, |PlanOf(t0)| - |queue|);
  }

  lemma NoteOne(t0: Task, t: Task, k: nat)
    requires k < |PlanOf(t0)| && Partway(t0, t, k + 1, k)
    ensures Partway(t0, t.(lastSeq := PlanOf(t0)[k].seqNo), k + 1, k + 1)
  {
    hide PlanOf;
  }

  lemma SuffixParts(plan: seq<Event>, queue: seq<Event>)
    requires 1 <= |queue| <= |plan| && queue == plan[|plan| - |queue|..]
    ensures queue[0] == plan[|plan| - |queue|]
    ensures |queue| > 1 ==> queue[1..] == plan[|plan| - |queue[1..]|..]
  {
  }

  lemma ReadingActs(t0: Task, t: Task, p: Stage, now: int, timeout: nat)
    requires RunningTask(t0) && HolderAt(t0, t, p) && (p.Reading? || p.Modelling?) && t.claimed
    ensures
      var (t1, p1) := Act(t, p, now, timeout);
      Holds(p1) && !p1.Releasing? && HolderAt(t0, t1, p1)
  {
    hide ValidModel;
    var plan := PlanOf(t0);
    assert t0.lastSeq != 0 ==> plan == Plan(t0.lastSeq, None);
    hide Plan;
    assert plan[|plan| - |plan|..] == plan && t0.log + plan[..0] == t0.log;
  }

  lemma EndingActs(t0: Task, t: Task, p: Stage, now: int, timeout: nat)
    requires RunningTask(t0) && HolderAt(t0, t, p) && (p.Checking? || p.Marking? || p.Forgetting? || p.Releasing?)
    requires t.claimed
    ensures
      var (t1, p1) := Act(t, p, now, timeout);
      if p.Releasing? then
        && !t1.claimed && p1.Idle?
        && (Untouched(t0, t1, 0) || Recovered(t0, t1))
        && (Recovered(t0, t) ==> Recovered(t0, t1))
      else t1.claimed && Holds(p1) && HolderAt(t0, t1, p1) && (p1.Releasing? ==> Recovered(t0, t1))
  {
    hide Plan, ValidModel;
    var plan := PlanOf(t0);
    assert plan[..|plan|] == plan;
  }

  /**
   * A scanner's command when it holds the claim: the recovery advances, or the claim is released over a recovered task.
   */
  lemma HolderActs(t0: Task, t: Task, p: Stage, now: int, timeout: nat)
    requires RunningTask(t0) && HolderAt(t0, t, p) && t.claimed
    ensures
      var (t1, p1) := Act(t, p, now, timeout);
      if p.Releasing? then
        && !t1.claimed && p1.Idle?
        && (Untouched(t0, t1, 0) || Recovered(t0, t1))
        && (Recovered(t0, t) ==> Recovered(t0, t1))
      else t1.claimed && Holds(p1) && HolderAt(t0, t1, p1) && (p1.Releasing? ==> Recovered(t0, t1))
  {
    match p {
      case Adding(queue) => AddingActs(t0, t, queue, now, timeout);
      case Noting(queue) => NotingActs(t0, t, queue, now, timeout);
      case Reading => ReadingActs(t0, t, p, now, timeout);
      case Modelling => ReadingActs(t0, t, p, now, timeout);
      case _ => EndingActs(t0, t, p, now, timeout);
    }
    ClaimKept(t, p, now, timeout);
    hide HolderAt, Recovered, Act;
  }

  lemma ClaimKept(t: Task, p: Stage, now: int, timeout: nat)
    ensures Holds(p) && !p.Releasing? ==> Act(t, p, now, timeout).0.claimed == t.claimed
  {
  }

  lemma StepKeepsProgress(t0: Task, w: World, step: Step, timeout: nat)
    requires RunningTask(t0) && Progress(t0, w) && !step.raises
    ensures Progress(t0, Exec(w, step, timeout))
  {
    StepKeepsExclusion(w, step, timeout);
    if step.who < |w.scanners| {
      var p := w.scanners[step.who];
      var w1 := Exec(w, step, timeout);
      if Holds(p) {
        HolderActs(t0, w.task, p, step.now, timeout);
        hide HolderAt, Recovered, Act, Untouched;
        assert forall i :: 0 <= i < |w.scanners| && i != step.who ==>
          w1.scanners[i] == w.scanners[i] && !Holds(w.scanners[i]);
        assert w1.scanners[step.who] == Act(w.task, p, step.now, timeout).1;
      } else {
        hide Plan, ValidModel, Recovered, PlanOf;
        assert forall i :: 0 <= i < |w.scanners| && i != step.who ==> w1.scanners[i] == w.scanners[i];
        if p.Listed? && !w.task.claimed {
          assert Holds(w1.scanners[step.who]);
        } else {
          assert w1.task == w.task;
          assert forall i :: 0 <= i < |w.scanners| ==> (Holds(w1.scanners[i]) <==> Holds(w.scanners[i]));
        }
      }
    }
  }

  /**
   * The stages at which a bridge call may raise: a publish or its number is not left half done, nor an error without
   * end.
   */
  predicate HarmlessAt(p: Stage) {
    !p.Noting? && !p.Marking? && (p.Adding? ==> p.queue != [] && !p.queue[0].op.End?)
  }

  /** The task the next recovery begins from, once the call of the holder at p has raised. */
  function Rebase(t0: Task, t: Task, p: Stage): Task {
    if p.Reading? || p.Modelling? || p.Adding? then t.(claimed := false) else t0
  }

  /**
   * A recovery begun from t1 completes what one begun from t0 would have, calling complete at most this often before.
   */
  predicate Continues(t0: Task, t1: Task, calls: nat) {
    && RunningTask(t1)
    && t0.log <= t1.log && t1.log + PlanOf(t1) == t0.log + PlanOf(t0)
    && t0.completions <= t1.completions <= t0.completions + calls
    && (t1.log != t0.log ==> t1.completions > t0.completions)
  }

  /** Only the last event of a plan is an end, and its numbers follow the hash's. */
  lemma PlanShape(t: Task)
    ensures forall k :: 0 <= k < |PlanOf(t)| ==> (PlanOf(t)[k].op.End? <==> k == |PlanOf(t)| - 1)
    ensures forall k :: 0 <= k < |PlanOf(t)| ==> PlanOf(t)[k].seqNo == t.lastSeq + 1 + k
    ensures |PlanOf(t)| == if t.lastSeq == 0 && t.model.Some? then 3 else 2
  {
  }

  lemma HarmlessQueue(plan: seq<Event>, queue: seq<Event>)
    requires 1 <= |queue| <= |plan| && queue == plan[|plan| - |queue|..]
    requires forall k :: 0 <= k < |plan| ==> (plan[k].op.End? <==> k == |plan| - 1)
    ensures queue[0].op.End? <==> |queue| == 1
  {
  }

  /** Once its start is stored and noted, the task's own plan is the rest of the one under way. */
  lemma StartNotedContinues(t0: Task, t: Task)
    requires RunningTask(t0) && |PlanOf(t0)| == 3 && Partway(t0, t, 1, 1)
    ensures Continues(t0, t.(claimed := false), 1)
  {
    var plan, t1 := PlanOf(t0), t.(claimed := false);
    assert plan[..1] == [plan[0]];
    assert plan == [plan[0]] + PlanOf(t1);
    hide Plan, ValidModel, PlanOf;
    assert t0.log + plan == t0.log + [plan[0]] + PlanOf(t1);
  }

  lemma NothingStoredContinues(t0: Task, t: Task)
    requires RunningTask(t0) && t == t0.(claimed := true, completions := t0.completions + 1)
    ensures Continues(t0, t.(claimed := false), 1)
  {
    hide ValidModel;
  }

  lemma PartwayNowhere(t0: Task, t: Task)
    requires Partway(t0, t, 0, 0)
    ensures t == t0.(claimed := true, completions := t0.completions + 1)
  {
    hide PlanOf;
    assert t0.log + PlanOf(t0)[..0] == t0.log;
  }

  /** A publish that raises before anything is stored, or right after the start is noted. */
  lemma AddingRaiseContinues(t0: Task, t: Task, queue: seq<Event>)
    requires RunningTask(t0) && HolderAt(t0, t, Adding(queue)) && HarmlessAt(Adding(queue))
    ensures Continues(t0, t.(claimed := false), 1)
  {
    PlanShape(t0);
    HarmlessQueue(PlanOf(t0), queue);
    hide Plan, PlanOf, ValidModel, Continues, RunningTask, Partway;
    if |queue| < |PlanOf(t0)| {
      StartNotedContinues(t0, t);
    } else {
      PartwayNowhere(t0, t);
      NothingStoredContinues(t0, t);
    }
  }

  lemma RaiseContinues(t0: Task, t: Task, p: Stage)
    requires RunningTask(t0) && Holds(p) && HolderAt(t0, t, p) && t.claimed && HarmlessAt(p)
    ensures Continues(t0, Rebase(t0, t, p), 1)
    ensures Untouched(Rebase(t0, t, p), t, 0) || Recovered(Rebase(t0, t, p), t)
  {
    hide Plan, PlanOf, ValidModel, Continues, RunningTask, Recovered, Partway;
    if p.Adding? {
      AddingRaiseContinues(t0, t, p.queue);
    } else if p.Reading? || p.Modelling? {
      NothingStoredContinues(t0, t);
    } else {
      SameContinues(t0);
    }
  }

  lemma SameContinues(t0: Task)
    requires RunningTask(t0)
    ensures Continues(t0, t0, 1)
  {
    hide ValidModel;
  }

  lemma RaiseKeepsProgress(t0: Task, w: World, step: Step, timeout: nat)
    requires RunningTask(t0) && Progress(t0, w)
    requires step.raises && step.who < |w.scanners| && HarmlessAt(w.scanners[step.who])
    ensures
      var t1 := if Holds(w.scanners[step.who]) then Rebase(t0, w.task, w.scanners[step.who]) else t0;
      Continues(t0, t1, 1) && Progress(t1, Exec(w, step, timeout))
  {
    hide Continues, Rebase, Untouched, Recovered, HarmlessAt, Partway, PlanOf, RunningTask;
    StepKeepsExclusion(w, step, timeout);
    SameContinues(t0);
    var p, w1 := w.scanners[step.who], Exec(w, step, timeout);
    assert forall i :: 0 <= i < |w.scanners| && i != step.who ==> w1.scanners[i] == w.scanners[i];
    if Holds(p) {
      RaiseContinues(t0, w.task, p);
      assert forall i :: 0 <= i < |w.scanners| && i != step.who ==> !Holds(w.scanners[i]);
    } else {
      assert forall i :: 0 <= i < |w.scanners| ==> (Holds(w1.scanners[i]) <==> Holds(w.scanners[i]));
    }
  }

  /** Every call that raises does so at a harmless stage of its scanner. */
  predicate RaisesHarmlessly(w: World, steps: seq<Step>, timeout: nat) {
    forall k :: 0 <= k < |steps| && steps[k].raises && steps[k].who < |w.scanners| ==>
      HarmlessAt(RunWorld(w, steps[..k], timeout).scanners[steps[k].who])
  }

  function Raises(steps: seq<Step>): nat {
    if steps == [] then 0 else Raises(steps[..|steps| - 1]) + if steps[|steps| - 1].raises then 1 else 0
  }

  /** The task the recovery under way began from: the executor's, or what the last raise left. */
  function BaseOf(w: World, steps: seq<Step>, timeout: nat): Task
    decreases |steps|
  {
    if steps == [] then w.task
    else
      var init, step := steps[..|steps| - 1], steps[|steps| - 1];
      var base, before := BaseOf(w, init, timeout), RunWorld(w, init, timeout);
      if step.raises && step.who < |w.scanners| && Holds(before.scanners[step.who])
      then Rebase(base, before.task, before.scanners[step.who])
      else base
  }

  lemma ContinuesOn(t0: Task, t1: Task, t2: Task, m: nat, n: nat)
    requires Continues(t0, t1, m) && Continues(t1, t2, n)
    ensures Continues(t0, t2, m + n)
  {
    hide PlanOf, RunningTask;
  }

  lemma HarmlessInit(w: World, steps: seq<Step>, timeout: nat)
    requires steps != [] && RaisesHarmlessly(w, steps, timeout)
    ensures RaisesHarmlessly(w, steps[..|steps| - 1], timeout)
    ensures
      var last := steps[|steps| - 1];
      last.raises && last.who < |w.scanners| ==>
        HarmlessAt(RunWorld(w, steps[..|steps| - 1], timeout).scanners[last.who])
  {
    hide RunWorld, HarmlessAt;
    var init := steps[..|steps| - 1];
    forall k | 0 <= k < |init| && init[k].raises && init[k].who < |w.scanners|
      ensures HarmlessAt(RunWorld(w, init[..k], timeout).scanners[init[k].who])
    {
      assert init[..k] == steps[..k] && init[k] == steps[k];
    }
  }

  lemma {:induction false} RunKeepsProgress(w: World, steps: seq<Step>, timeout: nat)
    requires Stopped(w) && RaisesHarmlessly(w, steps, timeout)
    ensures Continues(w.task, BaseOf(w, steps, timeout), Raises(steps))
    ensures Progress(BaseOf(w, steps, timeout), RunWorld(w, steps, timeout))
    decreases |steps|
  {
    hide Plan, ValidModel, Exec, HarmlessAt, Rebase;
    if steps != [] {
      var init, step := steps[..|steps| - 1], steps[|steps| - 1];
      var base, before := BaseOf(w, init, timeout), RunWorld(w, init, timeout);
      HarmlessInit(w, steps, timeout);
      RunKeepsProgress(w, init, timeout);
      hide Progress, Continues, RaisesHarmlessly, Stopped;
      assert RunningTask(base) by {
        ContinuesRuns(w.task, base, Raises(init));
      }
      if step.who >= |w.scanners| {
        OutsiderDoesNothing(before, step, timeout);
        MoreCalls(w.task, base, Raises(init), Raises(steps));
      } else if step.raises {
        RaiseKeepsProgress(base, before, step, timeout);
        ContinuesOn(w.task, base, BaseOf(w, steps, timeout), Raises(init), 1);
      } else {
        StepKeepsProgress(base, before, step, timeout);
      }
    }
  }

  lemma ContinuesRuns(t0: Task, t1: Task, calls: nat)
    requires Continues(t0, t1, calls)
    ensures RunningTask(t1)
  {
  }

  lemma MoreCalls(t0: Task, t1: Task, few: nat, many: nat)
    requires Continues(t0, t1, few) && few <= many
    ensures Continues(t0, t1, many)
  {
  }

  lemma OutsiderDoesNothing(w: World, step: Step, timeout: nat)
    requires step.who >= |w.scanners|
    ensures Exec(w, step, timeout) == w
  {
  }

  /** Every log a recovery passes through: the executor's, and so much of the plan. */
  predicate PartOfPlan(t0: Task, log: seq<Event>) {
    exists k: nat :: k <= |PlanOf(t0)| && log == t0.log + PlanOf(t0)[..k]
  }

  lemma ProgressLog(t0: Task, w: World)
    requires RunningTask(t0) && Progress(t0, w)
    ensures PartOfPlan(t0, w.task.log)
    ensures w.task.status == Some(EventLog.Failed) ==> w.task.log == t0.log + PlanOf(t0)
    ensures w.task.status in {Some(EventLog.Running), Some(EventLog.Failed)}
    ensures t0.completions <= w.task.completions <= t0.completions + 1
    ensures w.task.log != t0.log ==> w.task.completions == t0.completions + 1
  {
    hide Plan, ValidModel, Noted;
    var plan, t := PlanOf(t0), w.task;
    assert plan[..|plan|] == plan && t0.log + plan[..0] == t0.log;
    if i :| 0 <= i < |w.scanners| && Holds(w.scanners[i]) {
      assert HolderAt(t0, t, w.scanners[i]);
    }
  }

  lemma PartOfContinued(t0: Task, t1: Task, calls: nat, log: seq<Event>)
    requires Continues(t0, t1, calls) && PartOfPlan(t1, log)
    ensures PartOfPlan(t0, log) && t1.log <= log
  {
    hide PlanOf, RunningTask;
    var k: nat :| k <= |PlanOf(t1)| && log == t1.log + PlanOf(t1)[..k];
    var whole := t0.log + PlanOf(t0);
    assert log == whole[..|t1.log| + k];
    var m := |log| - |t0.log|;
    assert log == t0.log + PlanOf(t0)[..m];
  }

  predicate NoneRaises(steps: seq<Step>) {
    forall i :: 0 <= i < |steps| ==> !steps[i].raises
  }

  lemma {:induction false} NoneIsHarmless(w: World, steps: seq<Step>, timeout: nat)
    requires NoneRaises(steps)
    ensures RaisesHarmlessly(w, steps, timeout) && Raises(steps) == 0
    decreases |steps|
  {
    if steps != [] {
      NoneIsHarmless(w, steps[..|steps| - 1], timeout);
    }
  }

  /**
   * Recovery safety. If the executor has stopped and bridge calls raise only at harmless stages, then over any
   * interleaving of any number of scanners: at most one is past the claim; the log is the executor's and a prefix of
   * one plan, so at most one error and one end are ever appended; complete is called before anything is appended, and
   * once more at most for every raise; and the task is failed only once the whole plan is stored.
   */
  lemma RecoverySafety(w: World, steps: seq<Step>, timeout: nat)
    requires Stopped(w) && RaisesHarmlessly(w, steps, timeout)
    ensures
      var t0, r := w.task, RunWorld(w, steps, timeout);
      && Exclusive(r)
      && PartOfPlan(t0, r.task.log)
      && (r.task.status == Some(EventLog.Failed) ==> r.task.log == t0.log + PlanOf(t0))
      && r.task.status in {Some(EventLog.Running), Some(EventLog.Failed)}
      && r.task.completions <= t0.completions + 1 + Raises(steps)
      && (r.task.log != t0.log ==> r.task.completions > t0.completions)
    ensures NoneRaises(steps) ==> Raises(steps) == 0
  {
    var base, r := BaseOf(w, steps, timeout), RunWorld(w, steps, timeout);
    RunKeepsProgress(w, steps, timeout);
    ProgressLog(base, r);
    PartOfContinued(w.task, base, Raises(steps), r.task.log);
    if NoneRaises(steps) {
      NoneIsHarmless(w, steps, timeout);
    }
    hide PlanOf, PartOfPlan, RunWorld, RaisesHarmlessly, BaseOf, NoneRaises, Raises;
  }

  /** A stopped executor's log, as its run leaves it: nothing yet, or a start and patches, numbered upwards. */
  predicate StoppedLog(log: seq<Event>) {
    PhaseOf(log) in {Nothing, Started, Streaming} && Increasing(log)
  }

  predicate LastPublishCompleted(t: Task) {
    t.lastSeq == if t.log == [] then 0 else t.log[|t.log| - 1].seqNo
  }

  /** Appending a plan is reading control events: out of place after another control event, or a start after a start. */
  lemma PlanPhase(log: seq<Event>, t: Task)
    ensures PhaseOf(log + PlanOf(t)) ==
      if PhaseOf(log) in {Nothing, Started, Streaming} && !(t.lastSeq == 0 && t.model.Some? && PhaseOf(log) != Nothing)
      then EndedBadly else Stuck
  {
    var plan := PlanOf(t);
    hide PhaseOf;
    PhaseStep(log, plan[0]);
    PhaseStep(log + [plan[0]], plan[1]);
    if |plan| == 3 {
      PhaseStep(log + [plan[0]] + [plan[1]], plan[2]);
      assert log + [plan[0]] + [plan[1]] + [plan[2]] == log + plan;
    } else {
      assert log + [plan[0]] + [plan[1]] == log + plan;
    }
  }

  lemma PlanOrder(log: seq<Event>, t: Task)
    requires Increasing(log)
    ensures Increasing(log + PlanOf(t)) <==> log == [] || log[|log| - 1].seqNo <= t.lastSeq
  {
    var plan := PlanOf(t);
    var all := log + plan;
    assert forall i :: 0 <= i < |plan| ==> plan[i].seqNo == t.lastSeq + 1 + i;
    if log != [] {
      assert all[|log| - 1] == log[|log| - 1] && all[|log|] == plan[0];
    }
  }

  lemma StartedIsNotEmpty(log: seq<Event>)
    ensures PhaseOf(log) == Nothing && log != [] ==> false
    ensures log == [] ==> PhaseOf(log) == Nothing
  {
  }

  /**
   * The recovered log, exactly. It reads start?, patches, error, end if and only if the executor stored no terminal
   * event and the hash knows of a stored start (or there is no model to start from); its numbers increase if and only
   * if the hash's number has caught up with the stream. All this holds once the last publish of an executor that
   * stopped before its first terminal event has completed.
   */
  lemma RecoveredLogExactly(t: Task)
    requires Increasing(t.log)
    ensures PhaseOf(t.log + PlanOf(t)) == EndedBadly <==>
      PhaseOf(t.log) in {Nothing, Started, Streaming} && !(t.lastSeq == 0 && t.model.Some? && t.log != [])
    ensures Increasing(t.log + PlanOf(t)) <==> t.log == [] || t.log[|t.log| - 1].seqNo <= t.lastSeq
    ensures StoppedLog(t.log) && LastPublishCompleted(t) && (t.log != [] ==> t.lastSeq > 0) ==>
      PhaseOf(t.log + PlanOf(t)) == EndedBadly && Increasing(t.log + PlanOf(t))
  {
    StartedIsNotEmpty(t.log);
    PlanPhase(t.log, t);
    PlanOrder(t.log, t);
  }

  /** A run that stored a terminal event and is still marked as running. */
  predicate Unmarked(s: Script) {
    && RunOf(s).status == Some(EventLog.Running)
    && PhaseOf(RunOf(s).log) in {Errored, EndedWell, EndedBadly}
  }

  lemma UnmarkedPlan(s: Script, t: Task)
    requires Unmarked(s) && t.log == RunOf(s).log
    ensures !s.marked || CutShort(s, LeadUp(s).failed)
    ensures PhaseOf(t.log + PlanOf(t)) == Stuck
  {
    PlanPhase(t.log, t);
    hide PhaseOf, ValidModel;
    if s.initialized && LeadUp(s).finalizes {
      var lead := LeadUp(s);
      hide LeadUp, Finalize;
      FinalizeLog(lead.run, s, lead.failed);
    } else if s.initialized {
      UnfinishedStoresNoControl(s);
    } else {
      StartedIsNotEmpty([]);
    }
  }

  /**
   * A run that stored a terminal event but could not mark its status is recovered all the same once its heartbeat
   * expires: whichever scanners recover it, once it is failed its log has a second error, or an error after its end.
   */
  lemma UnmarkedRunIsRecoveredAgain(s: Script, w: World, steps: seq<Step>, timeout: nat)
    requires Unmarked(s) && Stopped(w) && w.task.log == RunOf(s).log && RaisesHarmlessly(w, steps, timeout)
    ensures !s.marked || CutShort(s, LeadUp(s).failed)
    ensures
      var after := RunWorld(w, steps, timeout).task;
      after.status == Some(EventLog.Failed) ==> RunOf(s).log < after.log && PhaseOf(after.log) == Stuck
  {
    UnmarkedPlan(s, w.task);
    hide RunOf, LeadUp, CutShort, PhaseOf, RunWorld, Stopped, RaisesHarmlessly, PartOfPlan, Exclusive, Unmarked;
    RecoverySafety(w, steps, timeout);
  }

  lemma UnfinishedStoresNoControl(s: Script)
    requires s.initialized && !LeadUp(s).finalizes
    ensures PhaseOf(RunOf(s).log) in {Nothing, Started, Streaming, Stuck}
  {
    LeadUpState(s);
  }

  lemma {:induction false} PublishedGrows(r: Run, items: seq<Item>, ending: Callback)
    ensures Stream(r, items, ending).0.published >= r.published
    decreases |items|
  {
    hide Apply;
    if items != [] && TakeItem(r, items[0]).1 {
      PublishedGrows(TakeItem(r, items[0]).0, items[1..], ending);
    }
  }

  /** The task an executor leaves that stops between two turns, as its hash and stream show it. */
  predicate LeftBehind(log: seq<Event>, published: nat) {
    StoppedLog(log) && log != [] && log[|log| - 1].seqNo == published && published > 0
  }

  lemma LiveIsLeftBehind(r: Run)
    requires Live(r) && r.published > 0
    ensures LeftBehind(r.log, r.published)
  {
    hide ApplyAll, PhaseOf;
  }

  lemma StoppedRunState(s: Script)
    requires s.initialized && FirstStart(s).1.Acked? && Business(FirstStart(s).0, s).1
    ensures LeftBehind(Business(FirstStart(s).0, s).0.log, Business(FirstStart(s).0, s).0.published)
  {
    FirstStartState(s);
    hide FirstStart, PhaseOf, ApplyAll, Stream;
    var r1 := Issue(FirstStart(s).0, s.prepare.issued);
    assert Live(r1) && r1.published > 0;
    StreamKeepsOrder(r1, s.items, s.ending);
    PublishedGrows(r1, s.items, s.ending);
    LiveIsLeftBehind(Stream(r1, s.items, s.ending).0);
  }

  lemma LeftBehindPlan(t: Task)
    requires LeftBehind(t.log, t.lastSeq)
    ensures PlanOf(t) == [ErrorEvent(TimeoutFailure(), t.lastSeq + 1), EndEvent(t.lastSeq + 2)]
    ensures PhaseOf(t.log + PlanOf(t)) == EndedBadly && Increasing(t.log + PlanOf(t))
  {
    RecoveredLogExactly(t);
    hide PhaseOf, Increasing, ErrorEvent;
  }

  /**
   * An executor that stops between two turns of its stream loop, whatever the turns before, leaves a task that any
   * scanners recover in good order: once failed, its log is the executor's and an error and an end.
   */
  lemma StoppedRunRecovers(s: Script, w: World, steps: seq<Step>, timeout: nat)
    requires s.initialized && FirstStart(s).1.Acked? && Business(FirstStart(s).0, s).1
    requires
      var r := Business(FirstStart(s).0, s).0;
      w.task.log == r.log && w.task.lastSeq == r.published && Stopped(w) && RaisesHarmlessly(w, steps, timeout)
    ensures
      var r, after := Business(FirstStart(s).0, s).0, RunWorld(w, steps, timeout).task;
      after.status == Some(EventLog.Failed) ==>
        && after.log == r.log + [ErrorEvent(TimeoutFailure(), r.published + 1), EndEvent(r.published + 2)]
        && PhaseOf(after.log) == EndedBadly && Increasing(after.log)
  {
    hide Business, FirstStart, PhaseOf, Increasing, RunWorld, Stopped, RaisesHarmlessly, LeftBehind, PlanOf,
      PartOfPlan, Exclusive;
    StoppedRunState(s);
    RecoverySafety(w, steps, timeout);
    LeftBehindPlan(w.task);
  }

  /** The log once a task is recovered next: a task that is no longer running is not. */
  function NextLog(t: Task): seq<Event> {
    if t.status == Some(EventLog.Running) then t.log + PlanOf(t) else t.log
  }

  /** What stands in the log while a plan is being appended. */
  lemma PlanPrefixPhase(t0: Task, k: nat)
    requires PhaseOf(t0.log + PlanOf(t0)) == EndedBadly && k <= |PlanOf(t0)|
    ensures
      var plan := PlanOf(t0);
      PhaseOf(t0.log + plan[..k]) ==
        if k == |plan| then EndedBadly
        else if k == |plan| - 1 then Errored
        else if k == 0 then PhaseOf(t0.log)
        else Started
  {
    var plan, log := PlanOf(t0), t0.log;
    hide PhaseOf;
    PhaseStep(log, plan[0]);
    PhaseStep(log + [plan[0]], plan[1]);
    assert log + plan[..0] == log && log + plan[..1] == log + [plan[0]];
    assert log + plan[..2] == log + [plan[0]] + [plan[1]];
    assert log + plan[..|plan|] == log + plan;
    if |plan| == 3 {
      PhaseStep(log + [plan[0]] + [plan[1]], plan[2]);
      assert log + [plan[0]] + [plan[1]] + [plan[2]] == log + plan;
    }
  }

  lemma IncreasingPrefix(log: seq<Event>, k: nat)
    requires Increasing(log) && k <= |log|
    ensures Increasing(log[..k])
  {
    assert forall i :: 0 <= i < k ==> log[..k][i] == log[i];
  }

  lemma PlanPrefixOrder(t0: Task, k: nat)
    requires Increasing(t0.log + PlanOf(t0)) && k <= |PlanOf(t0)|
    ensures Increasing(t0.log + PlanOf(t0)[..k])
    ensures k > 0 ==> (t0.log + PlanOf(t0)[..k])[|t0.log| + k - 1] == PlanOf(t0)[k - 1]
    ensures t0.log != [] ==> t0.log[|t0.log| - 1].seqNo <= t0.lastSeq
  {
    hide Increasing, PlanOf;
    var whole := t0.log + PlanOf(t0);
    IncreasingPrefix(whole, |t0.log|);
    IncreasingPrefix(whole, |t0.log| + k);
    assert whole[..|t0.log|] == t0.log;
    PlanOrder(t0.log, t0);
    assert whole[..|t0.log| + k] == t0.log + PlanOf(t0)[..k];
  }

  /** A recovery abandoned with this much of the plan stored, and this much of it noted. */
  lemma AbandonedShape(t0: Task, t: Task, stored: nat, noted: nat)
    requires Partway(t0, t, stored, noted) && noted <= stored <= noted + 1
    requires PhaseOf(t0.log + PlanOf(t0)) == EndedBadly
    ensures PhaseOf(t.log + PlanOf(t)) == EndedBadly <==> stored == noted < |PlanOf(t0)| - 1
  {
    PlanShape(t0);
    PlanPrefixPhase(t0, stored);
    PlanPhase(t.log, t);
    PlanPhase(t0.log, t0);
    assert stored == 0 ==> t.log == t0.log;
    hide PhaseOf, PlanOf, ValidModel;
  }

  lemma AbandonedOrder(t0: Task, t: Task, stored: nat, noted: nat)
    requires Partway(t0, t, stored, noted) && noted <= stored <= noted + 1
    requires Increasing(t0.log + PlanOf(t0))
    ensures Increasing(t.log + PlanOf(t)) <==> stored == noted
  {
    PlanShape(t0);
    PlanPrefixOrder(t0, stored);
    PlanOrder(t.log, t);
    assert stored == 0 ==> t.log == t0.log;
    hide Increasing, PlanOf;
  }

  lemma AbandonedPartway(t0: Task, t: Task, stored: nat, noted: nat)
    requires RunningTask(t0) && Partway(t0, t, stored, noted) && noted <= stored <= noted + 1
    requires PhaseOf(t0.log + PlanOf(t0)) == EndedBadly && Increasing(t0.log + PlanOf(t0))
    ensures PhaseOf(NextLog(t)) == EndedBadly <==> stored == noted < |PlanOf(t0)| - 1
    ensures Increasing(NextLog(t)) <==> stored == noted
  {
    hide PhaseOf, Increasing, PlanOf, ValidModel;
    AbandonedShape(t0, t, stored, noted);
    AbandonedOrder(t0, t, stored, noted);
  }

  /**
   * Before its first append a recovery has changed nothing the next one reads; after its last mark there is no next
   * one.
   */
  lemma UntouchedOrOver(t0: Task, t: Task, calls: nat)
    requires RunningTask(t0) && (Untouched(t0, t, calls) || Recovered(t0, t))
    ensures NextLog(t) == t0.log + PlanOf(t0)
  {
    hide ValidModel, Plan;
  }

  lemma AddingEnds(t0: Task, t: Task, queue: seq<Event>)
    requires HolderAt(t0, t, Adding(queue))
    ensures 1 <= |queue| <= |PlanOf(t0)| && (HarmlessAt(Adding(queue)) <==> |queue| > 1)
  {
    PlanShape(t0);
    hide PlanOf, Partway;
    HarmlessQueue(PlanOf(t0), queue);
  }

  lemma AddingLeaves(t0: Task, t: Task, queue: seq<Event>)
    requires RunningTask(t0) && HolderAt(t0, t, Adding(queue))
    requires PhaseOf(t0.log + PlanOf(t0)) == EndedBadly && Increasing(t0.log + PlanOf(t0))
    ensures PhaseOf(NextLog(t)) == EndedBadly <==> HarmlessAt(Adding(queue))
    ensures Increasing(NextLog(t))
  {
    hide PhaseOf, Increasing, PlanOf, RunningTask, Partway, NextLog, HarmlessAt;
    AddingEnds(t0, t, queue);
    AbandonedPartway(t0, t, |PlanOf(t0)| - |queue|, |PlanOf(t0)| - |queue|);
  }

  lemma NotingLeaves(t0: Task, t: Task, queue: seq<Event>)
    requires RunningTask(t0) && HolderAt(t0, t, Noting(queue))
    requires PhaseOf(t0.log + PlanOf(t0)) == EndedBadly && Increasing(t0.log + PlanOf(t0))
    ensures PhaseOf(NextLog(t)) != EndedBadly && !Increasing(NextLog(t))
  {
    var n := |PlanOf(t0)|;
    hide PhaseOf, Increasing, PlanOf, RunningTask, Partway, NextLog;
    AbandonedPartway(t0, t, n - |queue| + 1, n - |queue|);
  }

  lemma HolderLeaves(t0: Task, t: Task, p: Stage)
    requires RunningTask(t0) && Holds(p) && HolderAt(t0, t, p)
    requires PhaseOf(t0.log + PlanOf(t0)) == EndedBadly && Increasing(t0.log + PlanOf(t0))
    ensures PhaseOf(NextLog(t)) == EndedBadly <==> HarmlessAt(p)
    ensures Increasing(NextLog(t)) <==> !p.Noting?
  {
    hide PhaseOf, Increasing, PlanOf, RunningTask, Partway, Untouched, Recovered, NextLog;
    if p.Adding? {
      AddingLeaves(t0, t, p.queue);
    } else if p.Noting? {
      NotingLeaves(t0, t, p.queue);
    } else if p.Marking? {
      AbandonedPartway(t0, t, |PlanOf(t0)|, |PlanOf(t0)|);
    } else {
      UntouchedOrOver(t0, t, if p.Reading? || p.Modelling? then 1 else 0);
    }
  }

  /**
   * Which raises do harm, exactly. When a call of the claim's holder raises, the log of the next recovery reads start?,
   * patches, error, end if and only if the holder stood at a harmless stage: before its first append, right after a
   * noted start, or with the task marked. Its numbers increase if and only if the holder was not between an append and
   * its note.
   */
  lemma RaiseIsHarmlessExactly(t0: Task, w: World, i: nat, now: int, timeout: nat)
    requires RunningTask(t0) && Progress(t0, w) && i < |w.scanners| && Holds(w.scanners[i])
    requires PhaseOf(t0.log + PlanOf(t0)) == EndedBadly && Increasing(t0.log + PlanOf(t0))
    ensures
      var p, t := w.scanners[i], Exec(w, Step(i, now, true), timeout).task;
      && (PhaseOf(NextLog(t)) == EndedBadly <==> HarmlessAt(p))
      && (Increasing(NextLog(t)) <==> !p.Noting?)
  {
    hide PhaseOf, Increasing, PlanOf, RunningTask, HolderAt, HarmlessAt, NextLog, Untouched, Recovered;
    assert HolderAt(t0, w.task, w.scanners[i]);
    HolderLeaves(t0, w.task, w.scanners[i]);
  }

  function RaisedThenReleased(w: World, i: nat, now: int, timeout: nat): World {
    Exec(Exec(w, Step(i, now, true), timeout), Step(i, now, false), timeout)
  }

  lemma RaisedPublishReleases(t0: Task, w: World, i: nat, now: int, timeout: nat)
    requires RunningTask(t0) && Progress(t0, w) && i < |w.scanners| && w.scanners[i].Adding?
    requires |w.scanners[i].queue| == 1
    ensures
      var w1, plan := RaisedThenReleased(w, i, now, timeout), PlanOf(t0);
      Stopped(w1) && w1.task.log == t0.log + plan[..|plan| - 1] && w1.task.lastSeq > 0
  {
    hide ValidModel, Plan;
    assert HolderAt(t0, w.task, w.scanners[i]);
    PlanShape(t0);
    assert RaisedThenReleased(w, i, now, timeout).task == w.task.(claimed := false);
    var w1 := RaisedThenReleased(w, i, now, timeout);
    assert forall j :: 0 <= j < |w.scanners| && j != i ==> w1.scanners[j] == w.scanners[j] && !Holds(w.scanners[j]);
  }

  /**
   * One that does harm. If the publish of the end event raises, the claim is released over a running task whose error
   * is stored; whoever recovers it next appends a second error.
   */
  lemma RaisedPublishRepeatsError(t0: Task, w: World, i: nat, now: int, timeout: nat)
    requires RunningTask(t0) && PhaseOf(t0.log + PlanOf(t0)) == EndedBadly
    requires Progress(t0, w) && i < |w.scanners| && w.scanners[i].Adding? && |w.scanners[i].queue| == 1
    ensures
      var w1 := RaisedThenReleased(w, i, now, timeout);
      && Stopped(w1)
      && PhaseOf(w1.task.log) == Errored
      && PlanOf(w1.task)[0].op.Error?
      && PhaseOf(w1.task.log + PlanOf(w1.task)) == Stuck
  {
    hide PhaseOf, PlanOf, RaisedThenReleased, Progress, RunningTask;
    RaisedPublishReleases(t0, w, i, now, timeout);
    PlanShape(t0);
    PlanPrefixPhase(t0, |PlanOf(t0)| - 1);
    var w1 := RaisedThenReleased(w, i, now, timeout);
    PlanPhase(w1.task.log, w1.task);
    PlanStartsWithError(w1.task);
  }

  lemma PlanStartsWithError(t: Task)
    requires t.lastSeq > 0
    ensures PlanOf(t)[0].op.Error?
  {
  }

  lemma {:induction false} RunFirst(w: World, step: Step, rest: seq<Step>, timeout: nat)
    ensures RunWorld(w, [step] + rest, timeout) == RunWorld(Exec(w, step, timeout), rest, timeout)
    decreases |rest|
  {
    hide Exec;
    var steps := [step] + rest;
    if rest == [] {
      assert steps[..0] == [] && steps == [step];
      assert RunWorld(w, steps, timeout) == Exec(RunWorld(w, steps[..0], timeout), step, timeout);
    } else {
      assert steps[..|steps| - 1] == [step] + rest[..|rest| - 1];
      RunFirst(w, step, rest[..|rest| - 1], timeout);
    }
  }

  function Repeated(step: Step, n: nat): seq<Step> {
    seq(n, i => step)
  }

  /** These commands leave the task recovered and its claim free. */
  predicate FinishedBy(t0: Task, w: World, steps: seq<Step>, timeout: nat) {
    var done := RunWorld(w, steps, timeout);
    !done.task.claimed && Recovered(t0, done.task)
  }

  /** A holder that releases a task it has not recovered, because one of its calls raised. */
  predicate Abandons(t0: Task, t: Task, p: Stage) {
    p.Releasing? && !Recovered(t0, t)
  }

  lemma HolderSteps(t0: Task, w: World, step: Step, timeout: nat)
    requires RunningTask(t0) && Progress(t0, w) && step.who < |w.scanners| && Holds(w.scanners[step.who])
    requires !step.raises
    requires !Abandons(t0, w.task, w.scanners[step.who])
    ensures
      var p, w1 := w.scanners[step.who], Exec(w, step, timeout);
      && Progress(t0, w1)
      && Rank(w1.scanners[step.who]) < Rank(p)
      && (if p.Releasing? then !w1.task.claimed && Recovered(t0, w1.task)
          else Holds(w1.scanners[step.who]) && !Abandons(t0, w1.task, w1.scanners[step.who]))
  {
    var p := w.scanners[step.who];
    StepKeepsProgress(t0, w, step, timeout);
    HolderActs(t0, w.task, p, step.now, timeout);
    RankFalls(w.task, p, step.now, timeout);
  }

  /**
   * The holder of the claim, left to itself, finishes within its rank: the task is recovered and the claim is free.
   * If a call of its own raised, it gives the claim back over a task the next recovery can begin from.
   */
  lemma {:induction false} HolderFinishes(t0: Task, w: World, i: nat, now: int, timeout: nat)
    requires RunningTask(t0) && Progress(t0, w) && i < |w.scanners| && Holds(w.scanners[i])
    ensures Abandons(t0, w.task, w.scanners[i]) ==>
      var released := Exec(w, Step(i, now, false), timeout).task;
      !released.claimed && Untouched(t0, released, 0)
    ensures !Abandons(t0, w.task, w.scanners[i]) ==>
      exists n: nat :: n <= Rank(w.scanners[i]) && FinishedBy(t0, w, Repeated(Step(i, now, false), n), timeout)
    decreases Rank(w.scanners[i])
  {
    hide RunningTask, Progress, Recovered, Untouched, Exec, Rank, FinishedBy;
    var step := Step(i, now, false);
    if Abandons(t0, w.task, w.scanners[i]) {
      AbandonedIsReleased(t0, w, step, timeout);
      return;
    }
    var w1 := Exec(w, step, timeout);
    HolderSteps(t0, w, step, timeout);
    if w.scanners[i].Releasing? {
      assert Repeated(step, 0) == [];
      NothingLeft(t0, w1, timeout);
      FinishesFirst(t0, w, step, 0, timeout);
    } else {
      HolderFinishes(t0, w1, i, now, timeout);
      var n: nat :| n <= Rank(w1.scanners[i]) && FinishedBy(t0, w1, Repeated(step, n), timeout);
      FinishesFirst(t0, w, step, n, timeout);
      assert n + 1 <= Rank(w.scanners[i]);
    }
  }

  lemma NothingLeft(t0: Task, w: World, timeout: nat)
    requires !w.task.claimed && Recovered(t0, w.task)
    ensures FinishedBy(t0, w, [], timeout)
  {
    hide Recovered;
  }

  lemma FinishesFirst(t0: Task, w: World, step: Step, n: nat, timeout: nat)
    requires FinishedBy(t0, Exec(w, step, timeout), Repeated(step, n), timeout)
    ensures FinishedBy(t0, w, Repeated(step, n + 1), timeout)
  {
    hide Exec, Recovered;
    assert Repeated(step, n + 1) == [step] + Repeated(step, n);
    RunFirst(w, step, Repeated(step, n), timeout);
  }

  lemma AbandonedIsReleased(t0: Task, w: World, step: Step, timeout: nat)
    requires Progress(t0, w) && step.who < |w.scanners| && !step.raises && Abandons(t0, w.task, w.scanners[step.who])
    ensures
      var released := Exec(w, step, timeout).task;
      !released.claimed && Untouched(t0, released, 0)
  {
    hide Recovered;
    assert HolderAt(t0, w.task, w.scanners[step.who]);
  }

  lemma RankFalls(t: Task, p: Stage, now: int, timeout: nat)
    requires Holds(p)
    ensures Rank(Act(t, p, now, timeout).1) < Rank(p)
  {
    hide ValidModel;
  }
}
