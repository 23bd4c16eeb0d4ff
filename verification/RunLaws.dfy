/** What every run leaves behind, whichever callbacks raise and whichever publishes fail. */
module RunLaws {
  import opened Json
  import opened Masks
  import opened Model
  import opened Reducer
  import opened ReducerLaws
  import EventLog
  import opened RunSpec

  /** The states of a reader that accepts start? (set|append)* error? end?, with patches only after a start. */
  datatype Phase = Nothing | Started | Streaming | Errored | EndedWell | EndedBadly | Stuck

  function Next(p: Phase, op: Op): Phase {
    if p.Nothing? && op.Start? then Started
    else if (p.Started? || p.Streaming?) && (op.Set? || op.Append?) then Streaming
    else if (p.Nothing? || p.Started? || p.Streaming?) && op.Error? then Errored
    else if (p.Started? || p.Streaming?) && op.End? then EndedWell
    else if p.Errored? && op.End? then EndedBadly
    else Stuck
  }

  function PhaseOf(log: seq<Event>): Phase
    decreases |log|
  {
    if log == [] then Nothing else Next(PhaseOf(log[..|log| - 1]), log[|log| - 1].op)
  }

  predicate Increasing(log: seq<Event>) {
    forall i, j :: 0 <= i < j < |log| ==> log[i].seqNo < log[j].seqNo
  }

  predicate AtMost(log: seq<Event>, n: nat) {
    forall i :: 0 <= i < |log| ==> log[i].seqNo <= n
  }

  /** What only finalize changes. */
  predicate SameOutcome(r: Run, r1: Run) {
    r1.completions == r.completions && r1.terminal == r.terminal && r1.status == r.status
  }

  lemma PhaseStep(log: seq<Event>, e: Event)
    ensures PhaseOf(log + [e]) == Next(PhaseOf(log), e.op)
  {
    assert (log + [e])[..|log|] == log;
  }

  /** The control events a run stores last, from the state finalize begins in. */
  function Controls(r: Run, s: Script, failed: bool): seq<Event> {
    var offset := r.offset + s.complete.issued;
    if !failed && !s.complete.raises then
      if Stores(s.end) then [EndEvent(offset + 1)] else []
    else if !Stores(s.error) then []
    else if s.error.Acked? && Stores(s.end) then [ErrorEvent(s.failure, offset + 1), EndEvent(offset + 2)]
    else [ErrorEvent(s.failure, offset + 1)]
  }

  /** Finalize is cancelled while it waits for a terminal publish, and returns nothing. */
  predicate CutShort(s: Script, failed: bool) {
    if failed || s.complete.raises then s.error.Cut? || (s.error.Acked? && s.end.Cut?) else s.end.Cut?
  }

  lemma FinishLog(r: Run, s: Script, failed: bool, errors: seq<TerminalEvent>, persisted: bool)
    ensures
      var done := FinishRun(r, s, failed, errors, persisted);
      && done.log == r.log + (if persisted && Stores(s.end) then [EndEvent(r.offset + 1)] else [])
      && done.completions == r.completions
      && done.status
         == (if !s.marked || (persisted && s.end.Cut?) then r.status
             else Some(if failed then EventLog.Failed else EventLog.Completed))
  {
    assert r.log + [] == r.log;
  }

  lemma FinalizeLog(r: Run, s: Script, failed: bool)
    ensures Finalize(r, s, failed).log == r.log + Controls(r, s, failed)
    ensures Finalize(r, s, failed).completions == r.completions + [Some(r.snapshot)]
    ensures Finalize(r, s, failed).status
         == (if !s.marked || CutShort(s, failed) then r.status
             else Some(if failed || s.complete.raises then EventLog.Failed else EventLog.Completed))
  {
    hide ErrorEvent, FinishRun;
    var r1 := Issue(r.(completions := r.completions + [Some(r.snapshot)]), s.complete.issued);
    if !failed && !s.complete.raises {
      FinishLog(r1, s, false, [], true);
    } else {
      var r2 := Issue(r1, 1);
      var e := ErrorEvent(s.failure, r2.offset);
      var r3 := Publish(r2, e, s.error);
      FinishLog(r3, s, true, [TerminalEvent(e, s.error.Acked?)], s.error.Acked?);
      assert r.log + [e] + [EndEvent(r3.offset + 1)] == r.log + [e, EndEvent(r3.offset + 1)];
      assert r.log + [] == r.log && r.log + [e] + [] == r.log + [e];
    }
  }

  /** Everything a run stores: what the lead-up stored, then the control events. */
  lemma RunLog(s: Script)
    requires s.initialized
    ensures
      var lead := LeadUp(s);
      RunOf(s).log == lead.run.log + (if lead.finalizes then Controls(lead.run, s, lead.failed) else [])
  {
    hide Finalize, LeadUp;
    var lead := LeadUp(s);
    FinalizeLog(lead.run, s, lead.failed);
    assert lead.run.log + [] == lead.run.log;
  }

  /** A started run in good order: its log is a start and patches, in increasing order, the last one acknowledged. */
  predicate Live(r: Run) {
    && PhaseOf(r.log) in {Started, Streaming}
    && Increasing(r.log)
    && r.log != [] && r.log[|r.log| - 1].seqNo == r.published
    && "blocks" in r.snapshot
    && ApplyAll(map[], r.log) == Accept(r.snapshot)
  }

  /** A run whose business has stopped. */
  predicate Halted(r: Run) {
    && PhaseOf(r.log) in {Started, Streaming}
    && Increasing(r.log)
  }

  lemma ApplyAllPush(log: seq<Event>, e: Event)
    ensures ApplyAll(map[], log + [e])
         == if ApplyAll(map[], log).ok then Apply(ApplyAll(map[], log).state, e) else ApplyAll(map[], log)
  {
    assert (log + [e])[..|log|] == log;
  }

  lemma IncreasingPush(log: seq<Event>, e: Event)
    requires Increasing(log) && (log != [] ==> log[|log| - 1].seqNo < e.seqNo)
    ensures Increasing(log + [e])
    ensures forall i :: 0 <= i < |log| ==> log[i].seqNo < e.seqNo
  {
  }

  lemma SetByMaskKeepsBlocks(s: Fields, mask: string, source: Fields)
    requires "blocks" in s && SetByMask(s, mask, source).ok
    ensures "blocks" in SetByMask(s, mask, source).state
  {
    hide WritePath, ReadPath, Split, BlocksOf, FindBlock;
  }

  lemma AppendKeepsBlocks(s: Fields, mask: string, block: Fields)
    requires "blocks" in s && AppendByMask(s, mask, block).ok
    ensures "blocks" in AppendByMask(s, mask, block).state
  {
    hide AppendValue, AppendField, ValidBlock, BlocksOf, FindBlock;
  }

  lemma ApplyKeepsBlocks(s: Fields, e: Event)
    requires "blocks" in s && (e.op.Set? || e.op.Append?)
    ensures "blocks" in Apply(s, e).state
    ensures !Apply(s, e).ok ==> Apply(s, e).state == s
  {
    if !Apply(s, e).ok {
      hide Apply;
      RejectionResidue(s, e);
    } else {
      hide ValidEvent, ValidBlock, SetByMask, AppendByMask, BlocksOf, FindBlock;
      if e.op.Append? {
        AppendKeepsBlocks(s, e.mask, e.block.value);
      } else if e.mask != "" {
        SetByMaskKeepsBlocks(s, e.mask, if e.meta.Some? then e.meta.value else e.block.value);
      }
    }
  }

  /** A turn of the stream loop that goes on keeps the run live; one that does not leaves it halted. */
  lemma TurnKeepsOrder(r: Run, item: Item)
    requires Live(r)
    ensures
      var (r1, goesOn) := TakeItem(r, item);
      && (if goesOn then Live(r1) else Halted(r1))
      && SameOutcome(r, r1)
  {
    hide Apply, ApplyAll, PhaseOf;
    if item.patch.Some? && (item.patch.value.op.Set? || item.patch.value.op.Append?) &&
      item.patch.value.seqNo > r.published {
      var e := item.patch.value;
      ApplyKeepsBlocks(r.snapshot, e);
      if Apply(r.snapshot, e).ok {
        var r1 := TakeItem(r, item).0;
        PhaseStep(r.log, e);
        ApplyAllPush(r.log, e);
        IncreasingPush(r.log, e);
      }
    }
  }

  lemma {:induction false} StreamKeepsOrder(r: Run, items: seq<Item>, ending: Callback)
    requires Live(r)
    ensures
      var (r1, ok) := Stream(r, items, ending);
      && (if ok then Live(r1) else Halted(r1))
      && SameOutcome(r, r1)
    decreases |items|
  {
    hide TakeItem, ApplyAll, PhaseOf;
    if items != [] {
      TurnKeepsOrder(r, items[0]);
      var (r1, goesOn) := TakeItem(r, items[0]);
      if goesOn {
        StreamKeepsOrder(r1, items[1..], ending);
      }
    }
  }

  lemma StartApplies(snapshot: Fields, model: Fields, n: nat)
    ensures ValidEvent(StartEvent(model, n)) <==> ValidModel(model)
    ensures ValidModel(model) ==> Apply(snapshot, StartEvent(model, n)) == Accept(model) && "blocks" in model
  {
  }

  /** A start published but not acknowledged, and then a second one stored: the one way to store two starts. */
  predicate DoublesStart(s: Script) {
    && s.initialized && !s.preStart.raises && ValidModel(s.model)
    && Stores(s.firstStart) && !s.firstStart.Acked?
    && Stores(s.retryStart)
  }

  lemma StartPublished(r: Run, model: Fields, a: Attempt)
    ensures
      var r1 := PublishStart(r, model, a).0;
      var e := StartEvent(model, r.offset + 1);
      && r1.log == (if ValidModel(model) && Stores(a) then r.log + [e] else r.log)
      && r1.snapshot == (if ValidModel(model) then model else r.snapshot)
      && r1.offset == r.offset + 1
      && SameOutcome(r, r1)
      && (PublishStart(r, model, a).1.Acked? <==> ValidModel(model) && a.Acked?)
      && (ValidModel(model) && a.Acked? ==> r1.published == r1.offset)
  {
    hide Apply, ValidModel, ValidEvent;
    StartApplies(r.snapshot, model, r.offset + 1);
  }

  lemma SingleStart(model: Fields, n: nat)
    requires ValidModel(model)
    ensures ApplyAll(map[], [StartEvent(model, n)]) == Accept(model)
    ensures PhaseOf([StartEvent(model, n)]) == Started
    ensures "blocks" in model
  {
    var e := StartEvent(model, n);
    StartApplies(map[], model, n);
    hide Apply, ValidModel;
    assert [e][..0] == [];
    assert ApplyAll(map[], []) == Accept(map[]);
    assert PhaseOf([]) == Nothing;
  }

  lemma FirstStartState(s: Script)
    ensures
      var (r, a) := FirstStart(s);
      var stored := !s.preStart.raises && ValidModel(s.model) && Stores(s.firstStart);
      && SameOutcome(FRESH.(status := Some(EventLog.Running)), r)
      && (a.Acked? ==> Live(r) && r.log == [StartEvent(s.model, s.preStart.issued + 1)] && r.published == r.offset)
      && (!a.Acked? ==> r.published == 0)
      && r.log == (if stored then [StartEvent(s.model, s.preStart.issued + 1)] else [])
      && s.preStart.issued <= r.offset
      && (stored ==> r.offset == s.preStart.issued + 1)
      && r.snapshot == (if !s.preStart.raises && ValidModel(s.model) then s.model else map[])
      && (a.Acked? <==> !s.preStart.raises && ValidModel(s.model) && s.firstStart.Acked?)
  {
    hide PublishStart, ValidModel, PhaseOf, ApplyAll;
    var r := Issue(FRESH.(status := Some(EventLog.Running)), s.preStart.issued);
    StartPublished(r, s.model, s.firstStart);
    assert [] + [StartEvent(s.model, r.offset + 1)] == [StartEvent(s.model, r.offset + 1)];
    if ValidModel(s.model) {
      SingleStart(s.model, s.preStart.issued + 1);
    }
    assert !PublishStart(r, s.model, s.firstStart).1.Acked? ==>
      PublishStart(r, s.model, s.firstStart).0.published == 0 by {
      PublishStartUnacked(r, s.model, s.firstStart);
    }
  }

  lemma PublishStartUnacked(r: Run, model: Fields, a: Attempt)
    ensures !PublishStart(r, model, a).1.Acked? ==> PublishStart(r, model, a).0.published == r.published
  {
    hide Apply, ValidEvent;
  }
}
