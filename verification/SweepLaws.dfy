/** Which tasks a sweep touches, and what it leaves behind in the ones it recovers. */
module SweepLaws {
  import opened Json
  import opened Model
  import opened Reducer
  import EventLog
  import opened RunSpec
  import opened Recovery
  import opened RecoveryState
  import opened ApplyLaws

  /** The heartbeat is at least timeout old. Without one there is nothing to wait for. */
  predicate Overdue(t: Task, now: int, timeout: nat) {
    t.heartbeat.Some? && now - t.heartbeat.value >= timeout
  }

  /** A model is only needed, and only read, when nothing was numbered. */
  predicate ModelServes(t: Task) {
    t.lastSeq > 0 || t.model.None? || ValidModel(t.model.value)
  }

  /** A task that beat less than timeout ago, that never beat, or that is claimed is left exactly as it is. */
  lemma LiveTaskIsLeftAlone(t: Task, now: int, timeout: nat)
    requires !Overdue(t, now, timeout) || t.claimed
    ensures SweepSpec(t, now, timeout) == (t, Swept(0))
  {
  }

  /**
   * An overdue, unclaimed task is recovered exactly when it runs and its model serves. If it does not run, it only
   * leaves the heartbeat index; if its model does not serve, the sweep raises, and only complete has been called.
   */
  lemma OverdueTaskIsRecovered(t: Task, now: int, timeout: nat)
    requires Overdue(t, now, timeout) && !t.claimed
    ensures
      var (after, swept) := SweepSpec(t, now, timeout);
      && (swept == Swept(1) <==> t.status == Some(EventLog.Running) && ModelServes(t))
      && (swept == Raised <==> t.status == Some(EventLog.Running) && !ModelServes(t))
      && (swept == Swept(1) || swept == Swept(0) || swept == Raised)
      && (swept == Swept(0) ==> after == t.(heartbeat := None))
      && (swept == Raised ==> after == t.(completions := t.completions + 1))
  {
    hide ValidModel, Plan;
  }

  /** The events are numbered one after another. */
  predicate Consecutive(events: seq<Event>, first: nat) {
    forall k :: 0 <= k < |events| ==> events[k].seqNo == first + k
  }

  /** An error for the expired heartbeat, and an end. */
  predicate TimesOut(error: Event, end: Event) {
    && error.op.Error? && error.mask == "meta.error" && error.meta.Some? && error.meta.value.Keys == {"error"}
    && Get(error.meta.value, "error").Obj?
    && var failure := Get(error.meta.value, "error").fields;
    && failure.Keys == {"code", "message"}
    && failure["code"] == Str("heartbeat_timeout") && failure["message"] == Str("execute event loop heartbeat expired")
    && end.op.End? && ValidEvent(end)
  }

  /** What recovery appends: numbered on from the last number, with the model first if none was numbered. */
  lemma RecoveredEvents(t: Task, now: int, timeout: nat)
    requires SweepSpec(t, now, timeout).1 == Swept(1)
    ensures
      var after := SweepSpec(t, now, timeout).0;
      && t.log <= after.log
      && var added := after.log[|t.log|..];
      && |added| == (if t.lastSeq == 0 && t.model.Some? then 3 else 2)
      && Consecutive(added, t.lastSeq + 1)
      && (|added| == 3 ==> added[0].op.Start? && added[0].model == t.model)
      && TimesOut(added[|added| - 2], added[|added| - 1])
      && after == t.(log := t.log + added, lastSeq := t.lastSeq + |added|, status := Some(EventLog.Failed),
        heartbeat := None, completions := t.completions + 1)
  {
    hide ValidModel;
    assert SweepSpec(t, now, timeout).0.log[|t.log|..] == Plan(t.lastSeq, t.model);
  }

  /** After a sweep that did not raise, no sweep at any time changes anything. */
  lemma SweepingTwice(t: Task, now: int, timeout: nat, later: int)
    requires Overdue(t, now, timeout) && !t.claimed && !SweepSpec(t, now, timeout).1.Raised?
    ensures
      var after := SweepSpec(t, now, timeout).0;
      SweepSpec(after, later, timeout) == (after, Swept(0))
  {
    hide ValidModel, Plan;
  }

  /**
   * Over any interleaving, raising calls included: as long as no scanner looks timeout or more after the heartbeat,
   * idle scanners stay idle and the task stays exactly as it is.
   */
  lemma {:induction false} BeatingTaskIsUntouched(w: World, steps: seq<Step>, timeout: nat)
    requires forall i :: 0 <= i < |w.scanners| ==> w.scanners[i] == Idle
    requires forall k :: 0 <= k < |steps| ==> !Overdue(w.task, steps[k].now, timeout)
    ensures RunWorld(w, steps, timeout) == w
    decreases |steps|
  {
    if steps != [] {
      var k := |steps| - 1;
      BeatingTaskIsUntouched(w, steps[..k], timeout);
      assert w.scanners[..] == w.scanners;
      if steps[k].who < |w.scanners| {
        assert w.scanners[steps[k].who := Idle] == w.scanners;
      }
    }
  }

  /** Past that age, an idle scanner that looks lists the task, and wins its claim if that is free. */
  lemma OverdueTaskIsClaimed(w: World, i: nat, now: int, timeout: nat)
    requires i < |w.scanners| && w.scanners[i] == Idle && Overdue(w.task, now, timeout) && !w.task.claimed
    ensures
      var w2 := RunWorld(w, [Step(i, now, false), Step(i, now, false)], timeout);
      w2.task == w.task.(claimed := true) && w2.scanners == w.scanners[i := Checking]
  {
    var step := Step(i, now, false);
    assert [step, step][..1] == [step] && [step][..0] == [];
    assert RunWorld(w, [], timeout) == w;
    assert RunWorld(w, [step], timeout) == Exec(w, step, timeout);
    assert w.scanners[i := Listed][i := Checking] == w.scanners[i := Checking];
  }

  /** An error event puts its failure at meta.error of whatever model it meets, and changes nothing else. */
  lemma ErrorCarriesFailure(s: Fields, failure: Fields, n: nat)
    ensures
      var out := Apply(s, ErrorEvent(failure, n));
      && out.ok && OnlyChanges(s, out.state, "meta") && "meta" in out.state && out.state["meta"].Obj?
      && Get(out.state["meta"].fields, "error") == Obj(failure)
      && OnlyChanges(MetaOf(s), out.state["meta"].fields, "error")
  {
    var payload: Fields := map["error" := Obj(failure)];
    assert ErrorEvent(failure, n) == Event(Error, n, mask := "meta.error", meta := Some(payload));
    ErrorMeans(s, payload, n);
  }

  /** A failed model is the model before with the failure in its metadata. */
  predicate FailedModel(before: Fields, after: Fields, code: string) {
    && OnlyChanges(before, after, "meta") && Get(after, "meta").Obj?
    && var error := Get(MetaOf(after), "error");
    && error.Obj? && Get(error.fields, "code") == Str(code)
    && OnlyChanges(MetaOf(before), MetaOf(after), "error")
  }

  /** To a client, a recovered task is what it was, or its stored model if nothing was numbered, with the failure. */
  lemma RecoveredModel(t: Task, s: Fields, now: int, timeout: nat)
    requires SweepSpec(t, now, timeout).1 == Swept(1)
    ensures
      var added := SweepSpec(t, now, timeout).0.log[|t.log|..];
      var base := if t.lastSeq == 0 && t.model.Some? then t.model.value else s;
      var out := ApplyAll(s, added);
      out.ok && FailedModel(base, out.state, "heartbeat_timeout")
  {
    var added := SweepSpec(t, now, timeout).0.log[|t.log|..];
    assert added == Plan(t.lastSeq, t.model);
    var base := if t.lastSeq == 0 && t.model.Some? then t.model.value else s;
    var k := |added| - 2;
    hide ValidModel;
    BaseOfPlan(t, s);
    assert added[k] == ErrorEvent(TimeoutFailure(), added[k].seqNo);
    assert added[k + 1] == EndEvent(added[k + 1].seqNo);
    hide ErrorEvent, Apply, Plan;
    ErrorCarriesFailure(base, TimeoutFailure(), added[k].seqNo);
    ControlMeans(Apply(base, added[k]).state, base, "", added[k + 1].seqNo);
    ThenTwo(s, added, base);
  }

  lemma BaseOfPlan(t: Task, s: Fields)
    requires ModelServes(t)
    ensures
      var plan := Plan(t.lastSeq, t.model);
      ApplyAll(s, plan[..|plan| - 2]) == Accept(if t.lastSeq == 0 && t.model.Some? then t.model.value else s)
  {
    hide ValidModel, ValidEvent;
    var plan := Plan(t.lastSeq, t.model);
    assert ApplyAll(s, []) == Accept(s);
    if t.lastSeq == 0 && t.model.Some? {
      ControlMeans(s, t.model.value, "", 1);
      assert plan[..1] == [plan[0]] && [plan[0]][..0] == [];
    } else {
      assert plan[..0] == [];
    }
  }

  lemma ThenTwo(s: Fields, events: seq<Event>, base: Fields)
    requires |events| >= 2 && ApplyAll(s, events[..|events| - 2]) == Accept(base)
    requires Apply(base, events[|events| - 2]).ok
    ensures ApplyAll(s, events)
         == Apply(Apply(base, events[|events| - 2]).state, events[|events| - 1])
  {
    hide Apply;
    assert events[..|events| - 1][..|events| - 2] == events[..|events| - 2];
  }
}
