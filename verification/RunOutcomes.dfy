/** The promises of a run: the shape and the order of its log, what complete sees, and what a completed run stores. */
module RunOutcomes {
  import opened Json
  import opened Model
  import opened Reducer
  import EventLog
  import opened RunSpec
  import opened RunLaws

  /** The two tries at a start, when the first was not acknowledged. */
  function StartsStored(s: Script): seq<Event> {
    var first, retry := StartEvent(s.model, s.preStart.issued + 1), FirstStart(s).0.offset + 1;
    (if !s.preStart.raises && ValidModel(s.model) && Stores(s.firstStart) then [first] else [])
    + (if ValidModel(s.model) && Stores(s.retryStart) then [StartEvent(s.model, retry)] else [])
  }

  lemma FailedStart(s: Script)
    requires s.initialized && !FirstStart(s).1.Acked?
    ensures
      var lead := LeadUp(s);
      && lead.run.log == StartsStored(s)
      && lead.run.snapshot == (if ValidModel(s.model) then s.model else map[])
      && lead.run.offset == FirstStart(s).0.offset + 1
      && lead.failed
      && SameOutcome(FRESH.(status := Some(EventLog.Running)), lead.run)
  {
    hide FirstStart, PublishStart, ValidModel;
    FirstStartState(s);
    StartPublished(FirstStart(s).0, s.model, s.retryStart);
  }

  lemma TwoStarts(model: Fields, m: nat, n: nat)
    requires ValidModel(model)
    ensures
      var log := [StartEvent(model, m), StartEvent(model, n)];
      ApplyAll(map[], log) == Accept(model) && PhaseOf(log) == Stuck
  {
    var first, second := [StartEvent(model, m)], StartEvent(model, n);
    SingleStart(model, m);
    hide ValidModel, PhaseOf, ApplyAll, Apply;
    StartApplies(model, model, n);
    ApplyAllPush(first, second);
    PhaseStep(first, second);
    assert first + [second] == [StartEvent(model, m), StartEvent(model, n)];
  }

  /** None, either or both of two starts stored. */
  lemma FoldedStarts(r: Run, m: nat, n: nat, first: bool, retry: bool)
    requires ValidModel(r.snapshot) && m < n <= r.offset
    requires r.log == (if first then [StartEvent(r.snapshot, m)] else [])
      + (if retry then [StartEvent(r.snapshot, n)] else [])
    ensures Increasing(r.log) && AtMost(r.log, r.offset)
    ensures PhaseOf(r.log) == if first && retry then Stuck else if first || retry then Started else Nothing
    ensures first && retry ==> |r.log| == 2 && r.log[0].op.Start? && PhaseOf(r.log[1..]) == Started
  {
    SingleStart(r.snapshot, m);
    SingleStart(r.snapshot, n);
    TwoStarts(r.snapshot, m, n);
    EmptyLog();
    hide ValidModel, PhaseOf, ApplyAll;
    var one, two := StartEvent(r.snapshot, m), StartEvent(r.snapshot, n);
    if first && retry {
      assert r.log == [one, two] && r.log[1..] == [two];
    } else if first {
      assert r.log == [one];
    } else if retry {
      assert r.log == [two];
    } else {
      assert r.log == [];
    }
  }

  /** What a failed start leaves behind. */
  lemma FailedStartState(s: Script)
    requires s.initialized && !FirstStart(s).1.Acked?
    ensures
      var lead := LeadUp(s);
      && Increasing(lead.run.log) && AtMost(lead.run.log, lead.run.offset)
      && (PhaseOf(lead.run.log) == if DoublesStart(s) then Stuck else if lead.run.log == [] then Nothing else Started)
      && (DoublesStart(s) ==> |lead.run.log| == 2 && lead.run.log[0].op.Start? && PhaseOf(lead.run.log[1..]) == Started)
  {
    FailedStart(s);
    FirstStartState(s);
    var r, first, retry := LeadUp(s).run, s.preStart.issued + 1, FirstStart(s).0.offset + 1;
    hide FirstStart, LeadUp, ValidModel, PhaseOf, ApplyAll;
    if ValidModel(s.model) {
      StartsInOrder(s);
      FoldedStarts(r, if !s.preStart.raises && Stores(s.firstStart) then first else 0, retry,
        !s.preStart.raises && Stores(s.firstStart), Stores(s.retryStart));
    } else {
      EmptyLog();
    }
  }

  lemma StartsInOrder(s: Script)
    ensures !s.preStart.raises && ValidModel(s.model) && Stores(s.firstStart) ==>
      FirstStart(s).0.offset == s.preStart.issued + 1
  {
    FirstStartState(s);
  }

  lemma EmptyLog()
    ensures PhaseOf([]) == Nothing && ApplyAll(map[], []) == Accept(map[])
  {
  }

  lemma AckedStartState(s: Script)
    requires s.initialized && FirstStart(s).1.Acked?
    ensures
      var lead := LeadUp(s);
      && Halted(lead.run)
      && lead.finalizes == !s.abandoned && SameOutcome(FRESH.(status := Some(EventLog.Running)), lead.run)
      && lead.run.log != []
  {
    FirstStartState(s);
    var r := FirstStart(s).0;
    hide FirstStart, PhaseOf, ApplyAll;
    var r1 := Issue(r, s.prepare.issued);
    assert Live(r1);
    if !s.prepare.raises {
      StreamKeepsOrder(r1, s.items, s.ending);
    }
    assert LeadUp(s).run.log != [] by {
      NothingIsEmpty(LeadUp(s).run.log);
    }
  }

  lemma NothingIsEmpty(log: seq<Event>)
    ensures log == [] ==> PhaseOf(log) == Nothing
  {
  }

  /** The reader through the control events. */
  lemma ControlsPhase(r: Run, s: Script, failed: bool)
    ensures
      var controls, before := Controls(r, s, failed), PhaseOf(r.log);
      var after := PhaseOf(r.log + controls);
      && (before in {Started, Streaming} ==> after in {before, Errored, EndedBadly, EndedWell})
      && (before == Nothing && failed ==> after in {before, Errored, EndedBadly})
      && (failed || s.complete.raises ==> (after == EndedWell <==> before == EndedWell && controls == []))
      && (!failed && !s.complete.raises && before in {Started, Streaming} ==> after in {before, EndedWell})
      && (before == Stuck ==> after == Stuck)
  {
    hide ErrorEvent;
    var controls, n := Controls(r, s, failed), r.offset + s.complete.issued + 1;
    hide PhaseOf;
    if controls == [] {
      assert r.log + controls == r.log;
    } else {
      PhaseStep(r.log, controls[0]);
      if |controls| == 2 {
        PhaseStep(r.log + [controls[0]], controls[1]);
        assert r.log + [controls[0]] + [controls[1]] == r.log + controls;
      } else {
        assert controls == [controls[0]];
      }
    }
  }

  /** Everything the lead-up settles, for every run. */
  lemma LeadUpState(s: Script)
    requires s.initialized
    ensures
      var lead := LeadUp(s);
      && SameOutcome(FRESH.(status := Some(EventLog.Running)), lead.run)
      && Increasing(lead.run.log)
      && (PhaseOf(lead.run.log) == Stuck <==> DoublesStart(s))
      && (DoublesStart(s) ==> |lead.run.log| == 2 && lead.run.log[0].op.Start? && PhaseOf(lead.run.log[1..]) == Started)
      && PhaseOf(lead.run.log) in {Nothing, Started, Streaming, Stuck}
      && (PhaseOf(lead.run.log) == Nothing || DoublesStart(s) ==> lead.failed)
  {
    FirstStartState(s);
    if FirstStart(s).1.Acked? {
      AckedStartState(s);
    } else {
      FailedStart(s);
      FailedStartState(s);
    }
  }

  lemma ControlsAfterDouble(r: Run, s: Script)
    requires |r.log| == 2 && PhaseOf(r.log[1..]) == Started
    ensures PhaseOf((r.log + Controls(r, s, true))[1..]) in {Started, Errored, EndedBadly}
  {
    var tail := r.log[1..];
    hide Controls, PhaseOf;
    assert (r.log + Controls(r, s, true))[1..] == tail + Controls(r, s, true);
    assert Controls(r.(log := tail), s, true) == Controls(r, s, true) by {
      ControlsIgnoreLog(r, tail, s);
    }
    ControlsPhase(r.(log := tail), s, true);
    FailedNeverEndsWell(r.(log := tail), s);
  }

  lemma ControlsIgnoreLog(r: Run, log: seq<Event>, s: Script)
    ensures Controls(r.(log := log), s, true) == Controls(r, s, true)
  {
  }

  lemma FailedNeverEndsWell(r: Run, s: Script)
    requires PhaseOf(r.log) == Started
    ensures PhaseOf(r.log + Controls(r, s, true)) != EndedWell
  {
    ControlsPhase(r, s, true);
  }

  /**
   * Whichever callbacks raise and publishes fail, the stored log reads start? (set|append)* error? end?, with patches
   * only after a start, except in one case, which is exact: a start that is stored without an answer and then stored
   * again; then a second start follows the first and the rest is a failed run's. A failed run stores end only after
   * error, a completed run stores no error, and no control event is stored before complete has been called.
   */
  lemma LogShape(s: Script)
    ensures
      var log, failed := RunOf(s).log, s.initialized && (LeadUp(s).failed || s.complete.raises);
      && (PhaseOf(log) == Stuck <==> DoublesStart(s))
      && (DoublesStart(s) ==> |log| >= 2 && log[0].op.Start? && PhaseOf(log[1..]) in {Started, Errored, EndedBadly})
      && (failed ==> PhaseOf(log) != EndedWell)
      && (!failed ==> PhaseOf(log) in {Nothing, Started, Streaming, EndedWell})
      && (RunOf(s).status == Some(EventLog.Completed) ==> !failed)
      && (RunOf(s).status == Some(EventLog.Failed) ==> failed)
      && (PhaseOf(log) in {Errored, EndedBadly, EndedWell} ==> |RunOf(s).completions| == 1)
  {
    EmptyLog();
    if s.initialized {
      LeadUpState(s);
      RunLog(s);
      var lead := LeadUp(s);
      hide LeadUp, PhaseOf, Controls, Finalize;
      if lead.finalizes {
        FinalizeLog(lead.run, s, lead.failed);
        ControlsPhase(lead.run, s, lead.failed);
        if DoublesStart(s) {
          ControlsAfterDouble(lead.run, s);
        }
      } else {
        assert lead.run.log + [] == lead.run.log;
        UnfinishedLead(s);
      }
    }
  }

  lemma UnfinishedLead(s: Script)
    requires s.initialized && !LeadUp(s).finalizes
    ensures LeadUp(s).failed
  {
  }

  lemma AckedExactly(s: Script)
    ensures FirstStart(s).1.Acked? <==> StartAcked(s)
  {
    FirstStartState(s);
  }

  /** The runs that never call complete: the second try at a start is cancelled, or the execute task never finalizes. */
  predicate SkipsComplete(s: Script) {
    s.initialized && if StartAcked(s) then s.abandoned else ValidModel(s.model) && s.retryStart.Cut?
  }

  lemma FinalizesExactly(s: Script)
    requires s.initialized
    ensures LeadUp(s).finalizes <==> !SkipsComplete(s)
  {
    AckedExactly(s);
    StartPublished(FirstStart(s).0, s.model, s.retryStart);
    RetryIsCut(FirstStart(s).0, s.model, s.retryStart);
    hide FirstStart, PublishStart, Business, ValidModel;
  }

  lemma RetryIsCut(r: Run, model: Fields, a: Attempt)
    ensures PublishStart(r, model, a).1.Cut? <==> ValidModel(model) && a.Cut?
  {
    hide Apply, ValidModel, ValidEvent;
    StartApplies(r.snapshot, model, r.offset + 1);
  }

  /** complete is called exactly once in every run, except those; in them it is never called. */
  lemma CompleteIsCalledOnce(s: Script)
    ensures |RunOf(s).completions| == if SkipsComplete(s) then 0 else 1
  {
    if s.initialized {
      LeadUpState(s);
      FinalizesExactly(s);
      var lead := LeadUp(s);
      hide Finalize, LeadUp, SkipsComplete;
      FinalizeLog(lead.run, s, lead.failed);
    }
  }

  /** A run in which no callback takes a number or raises, every publish is acknowledged, and nothing is yielded. */
  function Quiet(model: Fields): Script {
    var quiet := Callback(0, false);
    Script(true, model, quiet, Acked, Acked, quiet, [], quiet, false, false, quiet, map[], Acked, Acked, true)
  }

  /** For every valid model, both ways to skip complete: a retried start cut short, and an abandoned execute task. */
  lemma CompleteCanBeSkipped(model: Fields)
    requires ValidModel(model)
    ensures RunOf(Quiet(model).(firstStart := Refused, retryStart := Cut(false))).completions == []
    ensures
      var r := RunOf(Quiet(model).(prepare := Callback(0, true), abandoned := true));
      r.completions == [] && r.log == [StartEvent(model, 1)] && r.status == Some(EventLog.Running)
  {
    CompleteIsCalledOnce(Quiet(model).(firstStart := Refused, retryStart := Cut(false)));
    var s := Quiet(model).(prepare := Callback(0, true), abandoned := true);
    CompleteIsCalledOnce(s);
    AckedExactly(s);
    FirstStartState(s);
    hide FirstStart, ValidModel;
  }

  /** For every valid model: a first start stored without an answer, and a second one after it. */
  lemma StartCanBeStoredTwice(model: Fields)
    requires ValidModel(model)
    ensures
      var s := Quiet(model).(firstStart := Unacked);
      && DoublesStart(s)
      && RunOf(s).log == [StartEvent(model, 1), StartEvent(model, 2), ErrorEvent(s.failure, 3), EndEvent(4)]
      && PhaseOf(RunOf(s).log) == Stuck
  {
    var s := Quiet(model).(firstStart := Unacked);
    LogShape(s);
    RunLog(s);
    QuietLead(model);
    hide LeadUp, ValidModel, RunOf, ErrorEvent, PhaseOf;
  }

  lemma QuietLead(model: Fields)
    requires ValidModel(model)
    ensures
      var lead := LeadUp(Quiet(model).(firstStart := Unacked));
      && lead.finalizes && lead.failed && lead.run.offset == 2
      && lead.run.log == [StartEvent(model, 1), StartEvent(model, 2)]
  {
    var s := Quiet(model).(firstStart := Unacked);
    AckedExactly(s);
    FailedStart(s);
    FirstStartState(s);
    FinalizesExactly(s);
    hide FirstStart, LeadUp, ValidModel;
    assert StartsStored(s) == [StartEvent(model, 1), StartEvent(model, 2)];
  }
}
