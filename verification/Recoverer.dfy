/** One scanner's sweep as it changes the task's keys (sdks/python/src/agentue/runner/redis_bridge.py and runner.py). */
module RecoveryState {
  import opened Json
  import opened Model
  import EventLog
  import opened RunSpec
  import opened Recovery
  import RecoveryLaws
  import RunLaws
  import opened Emitter

  /** How a sweep ends: the tasks it recovered, or the exception of a stored model that does not validate. */
  datatype Swept = Swept(recovered: nat) | Raised

  /** The whole effect of a sweep nobody else interrupts. */
  function SweepSpec(t: Task, now: int, timeout: nat): (Task, Swept) {
    if !Expired(t, now, timeout) || t.claimed then (t, Swept(0))
    else if t.status != Some(EventLog.Running) then (t.(heartbeat := None), Swept(0))
    else if t.lastSeq == 0 && t.model.Some? && !ValidModel(t.model.value) then
      (t.(completions := t.completions + 1), Raised)
    else
      var plan := Plan(t.lastSeq, t.model);
      (t.(log := t.log + plan, lastSeq := plan[|plan| - 1].seqNo, status := Some(EventLog.Failed), heartbeat := None,
          completions := t.completions + 1), Swept(1))
  }

  class RedisBridge {
    var log: seq<Event>
    var status: Option<EventLog.Status>
    var lastSeq: nat
    var initialModel: Option<Fields>
    var claimed: bool
    var heartbeat: Option<int>
    var completions: nat
    const timeout: nat

    ghost function View(): Task
      reads this
    {
      Task(log, status, lastSeq, initialModel, claimed, heartbeat, completions)
    }

    constructor (timeout: nat)
      ensures View() == Task([], None, 0, None, false, None, 0) && this.timeout == timeout
    {
      log, status, lastSeq, initialModel := [], None, 0, None;
      claimed, heartbeat, completions := false, None, 0;
      this.timeout := timeout;
    }

    /** Sets up the hash of a task; the stream is not touched. */
    method Initialize(model: Fields, now: int)
      modifies this
      ensures View() == old(View()).(status := Some(EventLog.Running), lastSeq := 0, model := Some(model),
        heartbeat := Some(now))
    {
      status, lastSeq, initialModel := Some(EventLog.Running), 0, Some(model);
      Touch(now);
    }

    method Touch(now: int)
      modifies this`heartbeat
      ensures heartbeat == Some(now)
    {
      heartbeat := Some(now);
    }

    method Publish(event: Event, seqNo: nat)
      modifies this`log, this`lastSeq
      ensures log == old(log) + [event] && lastSeq == seqNo
    {
      log := log + [event];
      lastSeq := seqNo;
    }

    method IsExpired(now: int) returns (r: bool)
      ensures r == Expired(View(), now, timeout)
    {
      return heartbeat.Some? && heartbeat.value <= now - timeout;
    }

    method ClaimRecovery() returns (won: bool)
      modifies this`claimed
      ensures claimed && won == !old(claimed)
    {
      won := !claimed;
      claimed := true;
    }

    method ReleaseRecovery()
      modifies this`claimed
      ensures !claimed
    {
      claimed := false;
    }

    method ForgetHeartbeat()
      modifies this`heartbeat
      ensures heartbeat == None
    {
      heartbeat := None;
    }

    method MarkTerminal(terminal: EventLog.Status)
      modifies this`status, this`heartbeat
      ensures status == Some(terminal) && heartbeat == None
    {
      status := Some(terminal);
      heartbeat := None;
    }

    /** complete, then a start if no number is known, then error and end; not ok when the stored model raises. */
    method RecoverTask() returns (ok: bool)
      requires status == Some(EventLog.Running)
      modifies this
      ensures ok == !(old(lastSeq) == 0 && initialModel.Some? && !ValidModel(initialModel.value))
      ensures
        var plan := Plan(old(lastSeq), initialModel);
        View() == if !ok then old(View()).(completions := old(completions) + 1)
          else old(View()).(log := old(log) + plan, lastSeq := plan[|plan| - 1].seqNo, status := Some(EventLog.Failed),
                            heartbeat := None, completions := old(completions) + 1)
    {
      hide ValidModel, ValidEvent;
      completions := completions + 1;
      var emitter := new PatchEmitter(lastSeq);
      if emitter.offset == 0 && initialModel.Some? {
        var start := emitter.Start(initialModel.value, None);
        StartIsValidAsItsModel(initialModel.value, 1);
        if start.None? {
          return false;
        }
        Publish(start.value, emitter.offset);
      }
      var failure := TimeoutFailure();
      var blank := ErrorEvent(failure, 0);
      var error := emitter.Patch(blank);
      assert error == Some(ErrorEvent(failure, emitter.offset));
      Publish(error.value, emitter.offset);
      var end := emitter.End();
      Publish(end, emitter.offset);
      MarkTerminal(EventLog.Failed);
      return true;
    }

    method RecoverTimeouts(now: int) returns (r: Swept)
      modifies this
      ensures (View(), r) == SweepSpec(old(View()), now, timeout)
    {
      hide ValidModel, Plan;
      var expired := IsExpired(now);
      if !expired {
        return Swept(0);
      }
      var won := ClaimRecovery();
      if !won {
        return Swept(0);
      }
      if status != Some(EventLog.Running) {
        ForgetHeartbeat();
        ReleaseRecovery();
        return Swept(0);
      }
      var ok := RecoverTask();
      ReleaseRecovery();
      return if ok then Swept(1) else Raised;
    }
  }

  lemma StartIsValidAsItsModel(model: Fields, n: nat)
    ensures ValidEvent(StartEvent(model, n)) <==> ValidModel(model)
  {
  }

  lemma {:induction false} AlonePublishes(t: Task, queue: seq<Event>, now: int, timeout: nat)
    requires queue != []
    ensures Alone(t, Adding(queue), now, timeout)
         == Alone(t.(log := t.log + queue, lastSeq := queue[|queue| - 1].seqNo), Marking, now, timeout)
    decreases |queue|
  {
    var t1 := t.(log := t.log + [queue[0]]);
    var t2 := t1.(lastSeq := queue[0].seqNo);
    assert Alone(t, Adding(queue), now, timeout) == Alone(t1, Noting(queue), now, timeout);
    if |queue| == 1 {
      assert queue == [queue[0]];
      assert Alone(t1, Noting(queue), now, timeout) == Alone(t2, Marking, now, timeout);
    } else {
      assert Alone(t1, Noting(queue), now, timeout) == Alone(t2, Adding(queue[1..]), now, timeout);
      AlonePublishes(t2, queue[1..], now, timeout);
      assert t2.log + queue[1..] == t.log + queue;
    }
  }

  lemma AloneEnds(t: Task, now: int, timeout: nat)
    ensures Alone(t, Marking, now, timeout)
         == t.(status := Some(EventLog.Failed), heartbeat := None, claimed := false)
    ensures Alone(t, Forgetting, now, timeout) == t.(heartbeat := None, claimed := false)
    ensures Alone(t, Releasing, now, timeout) == t.(claimed := false)
  {
  }

  lemma AloneReads(t: Task, now: int, timeout: nat)
    ensures Alone(t, Reading, now, timeout)
         == if t.lastSeq == 0 && t.model.Some? && !ValidModel(t.model.value) then Alone(t, Releasing, now, timeout)
            else Alone(t, Adding(Plan(t.lastSeq, t.model)), now, timeout)
  {
    if t.lastSeq != 0 {
      assert Plan(t.lastSeq, t.model) == Plan(t.lastSeq, None);
      hide Plan, ValidModel;
    } else {
      hide Plan, ValidModel;
      assert Alone(t, Reading, now, timeout) == Alone(t, Modelling, now, timeout);
    }
  }

  /** A sweep is one scanner of the interleaving model taking all its steps by itself. */
  lemma SweepIsAlone(t: Task, now: int, timeout: nat)
    ensures Alone(t, Act(t, Idle, now, timeout).1, now, timeout) == SweepSpec(t, now, timeout).0
  {
    hide Plan, ValidModel;
    if Expired(t, now, timeout) && !t.claimed {
      var t1 := t.(claimed := true);
      assert Alone(t, Listed, now, timeout) == Alone(t1, Checking, now, timeout);
      if t.status == Some(EventLog.Running) {
        var t2, plan := t1.(completions := t.completions + 1), Plan(t.lastSeq, t.model);
        assert Alone(t1, Checking, now, timeout) == Alone(t2, Reading, now, timeout);
        AloneReads(t2, now, timeout);
        AloneEnds(t2, now, timeout);
        AlonePublishes(t2, plan, now, timeout);
        AloneEnds(t2.(log := t2.log + plan, lastSeq := plan[|plan| - 1].seqNo), now, timeout);
      } else {
        assert Alone(t1, Checking, now, timeout) == Alone(t1, Forgetting, now, timeout);
        AloneEnds(t1, now, timeout);
      }
    } else if Expired(t, now, timeout) {
      assert Alone(t, Listed, now, timeout) == Alone(t, Idle, now, timeout);
    }
  }

  /** One sweep is enough: it recovers a finished run whose status was not marked, and breaks the shape of its log. */
  lemma UnmarkedRunIsSweptAgain(s: Script, t: Task, now: int, timeout: nat)
    requires RecoveryLaws.Unmarked(s) && t.log == RunOf(s).log && t.status == RunOf(s).status
    requires Expired(t, now, timeout) && !t.claimed && (t.model.Some? ==> ValidModel(t.model.value))
    ensures
      var (after, swept) := SweepSpec(t, now, timeout);
      swept == Swept(1) && RunLaws.PhaseOf(after.log) == RunLaws.Stuck
  {
    RecoveryLaws.UnmarkedPlan(s, t);
    hide RunOf, RunLaws.PhaseOf, Plan, ValidModel;
  }

  /** And its steps are a run of the interleaving model: no other scanner moves. */
  lemma {:induction false} AloneIsARun(w: World, i: nat, now: int, timeout: nat)
    requires i < |w.scanners| && !w.scanners[i].Idle?
    ensures exists n: nat :: RunWorld(w, RecoveryLaws.Repeated(Step(i, now, false), n), timeout)
                          == World(Alone(w.task, w.scanners[i], now, timeout), w.scanners[i := Idle])
    decreases Rank(w.scanners[i])
  {
    hide Act;
    var step := Step(i, now, false);
    var w1 := Exec(w, step, timeout);
    RankFallsTo(w.task, w.scanners[i], now, timeout);
    assert w1.scanners[i] == Act(w.task, w.scanners[i], now, timeout).1;
    if w1.scanners[i].Idle? {
      assert RecoveryLaws.Repeated(step, 1) == [step] + [];
      RecoveryLaws.RunFirst(w, step, [], timeout);
      assert RunWorld(w1, [], timeout) == w1;
      assert Alone(w.task, w.scanners[i], now, timeout) == w1.task;
      assert w1.scanners == w.scanners[i := Idle];
      assert RunWorld(w, RecoveryLaws.Repeated(step, 1), timeout) == World(w1.task, w1.scanners);
    } else {
      AloneIsARun(w1, i, now, timeout);
      var n: nat :| RunWorld(w1, RecoveryLaws.Repeated(step, n), timeout)
                 == World(Alone(w1.task, w1.scanners[i], now, timeout), w1.scanners[i := Idle]);
      assert RecoveryLaws.Repeated(step, n + 1) == [step] + RecoveryLaws.Repeated(step, n);
      RecoveryLaws.RunFirst(w, step, RecoveryLaws.Repeated(step, n), timeout);
      assert w1.scanners[i := Idle] == w.scanners[i := Idle];
    }
  }

  lemma RankFallsTo(t: Task, p: Stage, now: int, timeout: nat)
    requires !p.Idle?
    ensures Rank(Act(t, p, now, timeout).1) < Rank(p)
  {
    hide ValidModel;
  }
}
