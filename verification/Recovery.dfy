/**
 * Recovery of a task whose heartbeat expired, by any number of scanners, one bridge command at a time
 * (sdks/python/src/agentue/runner/runner.py and redis_bridge.py).
 */
module Recovery {
  import opened Json
  import opened Model
  import EventLog
  import opened RunSpec

  /**
   * The keys of one task: its stream, the fields of its hash, its claim, its score in the heartbeat index; and how
   * often scanners have called complete for it.
   */
  datatype Task = Task(
    log: seq<Event>,
    status: Option<EventLog.Status>,
    lastSeq: nat,
    model: Option<Fields>,
    claimed: bool,
    heartbeat: Option<int>,
    completions: nat)

  /** Where a scanner stands with the task: what its next command is. */
  datatype Stage =
    | Idle
    | Listed
    | Checking
    | Reading
    | Modelling
    | Adding(queue: seq<Event>)
    | Noting(queue: seq<Event>)
    | Marking
    | Forgetting
    | Releasing

  /** The phases between winning the claim and releasing it. */
  predicate Holds(p: Stage) {
    !p.Idle? && !p.Listed?
  }

  function TimeoutFailure(): Fields {
    map["code" := Str("heartbeat_timeout"), "message" := Str("execute event loop heartbeat expired")]
  }

  /** The events a recovery appends: a start if nothing was numbered and a model is known, then error and end. */
  function Plan(offset: nat, model: Option<Fields>): (r: seq<Event>)
    ensures 2 <= |r| <= 3
  {
    if offset == 0 && model.Some? then
      [StartEvent(model.value, 1), ErrorEvent(TimeoutFailure(), 2), EndEvent(3)]
    else [ErrorEvent(TimeoutFailure(), offset + 1), EndEvent(offset + 2)]
  }

  predicate Expired(t: Task, now: int, timeout: nat) {
    t.heartbeat.Some? && t.heartbeat.value <= now - timeout
  }

  /**
   * One command of one scanner. Publishing is two: the stream grows, then the hash learns the number. A stored model
   * that does not validate raises, and the claim is released.
   */
  function Act(t: Task, p: Stage, now: int, timeout: nat): (Task, Stage) {
    match p
    case Idle => (t, if Expired(t, now, timeout) then Listed else Idle)
    case Listed => if t.claimed then (t, Idle) else (t.(claimed := true), Checking)
    case Checking =>
      if t.status == Some(EventLog.Running) then (t.(completions := t.completions + 1), Reading) else (t, Forgetting)
    case Reading => (t, if t.lastSeq == 0 then Modelling else Adding(Plan(t.lastSeq, None)))
    case Modelling =>
      if t.model.Some? && !ValidModel(t.model.value) then (t, Releasing) else (t, Adding(Plan(0, t.model)))
    case Adding(queue) => if queue == [] then (t, Marking) else (t.(log := t.log + [queue[0]]), Noting(queue))
    case Noting(queue) =>
      if queue == [] then (t, Marking)
      else (t.(lastSeq := queue[0].seqNo), if |queue| == 1 then Marking else Adding(queue[1..]))
    case Marking => (t.(status := Some(EventLog.Failed)), Forgetting)
    case Forgetting => (t.(heartbeat := None), Releasing)
    case Releasing => (t.(claimed := false), Idle)
  }

  /** The same command raising without effect: a holder goes on to release its claim, and a failed release leaves it. */
  function Raise(p: Stage): Stage {
    if Holds(p) && !p.Releasing? then Releasing else Idle
  }

  datatype Step = Step(who: nat, now: int, raises: bool)

  datatype World = World(task: Task, scanners: seq<Stage>)

  function Exec(w: World, step: Step, timeout: nat): (r: World)
    ensures |r.scanners| == |w.scanners|
  {
    if step.who >= |w.scanners| then w
    else if step.raises then w.(scanners := w.scanners[step.who := Raise(w.scanners[step.who])])
    else
      var (t, p) := Act(w.task, w.scanners[step.who], step.now, timeout);
      World(t, w.scanners[step.who := p])
  }

  /** Any interleaving of the scanners' commands. */
  function RunWorld(w: World, steps: seq<Step>, timeout: nat): (r: World)
    ensures |r.scanners| == |w.scanners|
    decreases |steps|
  {
    if steps == [] then w else Exec(RunWorld(w, steps[..|steps| - 1], timeout), steps[|steps| - 1], timeout)
  }

  /** How many commands are left before the claim is released. */
  function Rank(p: Stage): nat {
    match p
    case Idle => 0
    case Listed => 20
    case Checking => 19
    case Reading => 18
    case Modelling => 17
    case Adding(queue) => 2 * |queue| + 5
    case Noting(queue) => 2 * |queue| + 4
    case Marking => 3
    case Forgetting => 2
    case Releasing => 1
  }

  /** One scanner alone, from a phase on, until it is idle. */
  function Alone(t: Task, p: Stage, now: int, timeout: nat): Task
    decreases Rank(p)
  {
    if p.Idle? then t
    else
      var (t1, p1) := Act(t, p, now, timeout);
      Alone(t1, p1, now, timeout)
  }
}
