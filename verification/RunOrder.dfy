/** When the sequence numbers of a stored run strictly increase, and when a run completes. */
module RunOrder {
  import opened Json
  import opened Model
  import opened Reducer
  import opened ReducerLaws
  import EventLog
  import opened RunSpec
  import opened RunLaws
  import opened RunOutcomes

  /** Every yielded event carries a number the emitter has issued by the time it is yielded. */
  predicate YieldsIssued(offset: nat, items: seq<Item>)
    decreases |items|
  {
    items != [] ==>
      var now := offset + items[0].issued;
      && (items[0].patch.Some? ==> items[0].patch.value.seqNo <= now)
      && YieldsIssued(now, items[1..])
  }

  lemma {:induction false} StreamStaysIssued(r: Run, items: seq<Item>, ending: Callback)
    requires AtMost(r.log, r.offset) && YieldsIssued(r.offset, items)
    ensures AtMost(Stream(r, items, ending).0.log, Stream(r, items, ending).0.offset)
    decreases |items|
  {
    hide Apply;
    if items != [] {
      var (r1, goesOn) := TakeItem(r, items[0]);
      if goesOn {
        StreamStaysIssued(r1, items[1..], ending);
      }
    }
  }

  predicate RunYieldsIssued(s: Script) {
    YieldsIssued(FirstStart(s).0.offset + s.prepare.issued, s.items)
  }

  lemma LeadUpStaysIssued(s: Script)
    requires s.initialized && RunYieldsIssued(s)
    ensures AtMost(LeadUp(s).run.log, LeadUp(s).run.offset)
  {
    FirstStartState(s);
    if FirstStart(s).1.Acked? {
      hide FirstStart, Stream;
      var r := Issue(FirstStart(s).0, s.prepare.issued);
      StreamStaysIssued(r, s.items, s.ending);
    } else {
      FailedStartState(s);
    }
  }

  /** The control events are numbered upwards from the emitter's offset when finalize issues them. */
  lemma ControlsInOrder(r: Run, s: Script, failed: bool)
    requires Increasing(r.log)
    ensures
      var controls := Controls(r, s, failed);
      (Increasing(r.log + controls) <==>
        controls == [] || r.log == [] || r.log[|r.log| - 1].seqNo <= r.offset + s.complete.issued)
  {
    hide ErrorEvent;
    var controls := Controls(r, s, failed);
    var all := r.log + controls;
    if controls != [] && r.log != [] {
      assert all[|r.log| - 1] == r.log[|r.log| - 1] && all[|r.log|] == controls[0];
      assert controls[0].seqNo == r.offset + s.complete.issued + 1;
    }
  }

  lemma LeadOrder(s: Script)
    requires s.initialized
    ensures Increasing(LeadUp(s).run.log)
  {
    LeadUpState(s);
  }

  /**
   * The lead-up always stores increasing numbers. The whole log increases exactly when no control event is stored,
   * nothing else is, or the last number stored before finalize is not past the emitter's offset once complete is done.
   * That holds whenever every yielded event carries a number the emitter has issued.
   */
  lemma SeqOrder(s: Script)
    requires s.initialized
    ensures
      var lead := LeadUp(s);
      var before, after := lead.run.log, RunOf(s).log;
      && Increasing(before)
      && (Increasing(after) <==>
        after == before || before == [] || before[|before| - 1].seqNo <= lead.run.offset + s.complete.issued)
    ensures RunYieldsIssued(s) ==> Increasing(RunOf(s).log)
  {
    LeadOrder(s);
    RunLog(s);
    var lead := LeadUp(s);
    if RunYieldsIssued(s) {
      LeadUpStaysIssued(s);
    }
    hide LeadUp, RunOf, Controls, RunYieldsIssued, PhaseOf;
    ControlsInOrder(lead.run, s, lead.failed);
    assert lead.run.log + [] == lead.run.log;
  }

  function Patches(items: seq<Item>): (r: seq<Event>)
    requires forall i :: 0 <= i < |items| ==> items[i].patch.Some?
    ensures |r| == |items|
  {
    seq(|items|, i requires 0 <= i < |items| => items[i].patch.value)
  }

  /** Every yield parses as a set or an append, and its publish is acknowledged. */
  predicate AllDelivered(items: seq<Item>) {
    forall i :: 0 <= i < |items| ==>
      && items[i].patch.Some?
      && (items[i].patch.value.op.Set? || items[i].patch.value.op.Append?)
      && items[i].attempt.Acked?
  }

  lemma PatchesTail(items: seq<Item>)
    requires items != [] && AllDelivered(items)
    ensures AllDelivered([items[0]]) && AllDelivered(items[1..])
    ensures Patches(items) == [items[0].patch.value] + Patches(items[1..])
  {
  }

  predicate Fits(log: seq<Event>, items: seq<Item>) {
    && AllDelivered(items)
    && Increasing(log + Patches(items))
    && ApplyAll(map[], log + Patches(items)).ok
  }

  /** A turn goes on exactly when its one item fits. */
  lemma TurnGoesOn(r: Run, item: Item)
    requires Live(r)
    ensures TakeItem(r, item).1 <==> Fits(r.log, [item])
    ensures Fits(r.log, [item]) ==>
      AllDelivered([item]) && [item][0].patch.Some? && TakeItem(r, item).0.log == r.log + [item.patch.value]
  {
    hide Apply, ApplyAll, PhaseOf;
    assert [item][0] == item;
    if item.patch.Some? {
      var e := item.patch.value;
      ApplyAllPush(r.log, e);
      assert Patches([item]) == [e];
      if e.seqNo > r.published {
        IncreasingPush(r.log, e);
      } else {
        assert (r.log + [e])[|r.log|] == e && (r.log + [e])[|r.log| - 1] == r.log[|r.log| - 1];
      }
    }
  }

  /** Fitting items onto a log is fitting the first, then the rest. */
  lemma FitsTail(log: seq<Event>, items: seq<Item>)
    requires items != []
    ensures Fits(log, items) ==> Fits(log, [items[0]])
    ensures Fits(log, [items[0]]) ==>
      && [items[0]][0].patch.Some?
      && (Fits(log, items) <==> Fits(log + [items[0].patch.value], items[1..]))
      && (Fits(log, items) ==> log + Patches(items) == log + [items[0].patch.value] + Patches(items[1..]))
  {
    hide ApplyAll, Increasing;
    if AllDelivered([items[0]]) {
      DeliveredTail(items);
      assert [items[0]][0] == items[0];
      var e := items[0].patch.value;
      assert Patches([items[0]]) == [e];
      if AllDelivered(items) {
        PatchesTail(items);
        var rest := Patches(items[1..]);
        assert log + Patches(items) == log + [e] + rest;
        if Fits(log, items) {
          AcceptedPrefix(map[], log + [e] + rest, |log| + 1);
          assert (log + [e] + rest)[..|log| + 1] == log + [e];
          IncreasingPrefix(log + [e], rest);
        }
      }
    }
  }

  /** Running the stream to its end is fitting the whole of it onto the log. */
  lemma {:induction false} StreamCompletes(r: Run, items: seq<Item>, ending: Callback)
    requires Live(r)
    ensures Stream(r, items, ending).1 <==> !ending.raises && Fits(r.log, items)
    ensures Stream(r, items, ending).1 ==>
      AllDelivered(items) && Stream(r, items, ending).0.log == r.log + Patches(items)
    decreases |items|
  {
    if items == [] {
      assert r.log + Patches(items) == r.log;
    } else {
      TurnKeepsOrder(r, items[0]);
      TurnGoesOn(r, items[0]);
      FitsTail(r.log, items);
      hide Fits, TakeItem, Live;
      var (r1, goesOn) := TakeItem(r, items[0]);
      if goesOn {
        StreamCompletes(r1, items[1..], ending);
        FittingIsDelivered(r.log, items);
      }
    }
  }

  lemma DeliveredTail(items: seq<Item>)
    requires items != [] && AllDelivered([items[0]])
    ensures AllDelivered(items) <==> AllDelivered(items[1..])
  {
    assert [items[0]][0] == items[0];
    assert items == [items[0]] + items[1..];
  }

  lemma IncreasingPrefix(log: seq<Event>, rest: seq<Event>)
    requires Increasing(log + rest)
    ensures Increasing(log)
  {
    assert forall i :: 0 <= i < |log| ==> (log + rest)[i] == log[i];
  }

  /** The log once the first start is stored. */
  function Begun(s: Script): seq<Event> {
    [StartEvent(s.model, s.preStart.issued + 1)]
  }

  /** What has to go well before finalize. */
  predicate LeadsWell(s: Script) {
    && StartAcked(s)
    && !s.prepare.raises && Fits(Begun(s), s.items) && !s.ending.raises
    && !s.stopped && !s.abandoned
  }

  predicate GoesWell(s: Script) {
    s.initialized && LeadsWell(s) && !s.complete.raises && !s.end.Cut? && s.marked
  }

  /**
   * A run is marked completed exactly when nothing went wrong: the start and every yield acknowledged, the yields
   * numbered upwards past the start and accepted by the reducer one after another, and no callback raising. Then the
   * log holds the start and every yield, in order, and the end event if its publish stored it: nothing yielded is lost.
   */
  lemma CompletedExactly(s: Script)
    ensures RunOf(s).status == Some(EventLog.Completed) <==> GoesWell(s)
    ensures GoesWell(s) ==>
      var yielded := Begun(s) + Patches(s.items);
      var end := EndEvent(LeadUp(s).run.offset + s.complete.issued + 1);
      RunOf(s).log == yielded + if s.end.Refused? then [] else [end]
  {
    hide Fits, FirstStart, LeadUp, RunOf, ValidModel, Begun;
    if s.initialized {
      StatusOf(s);
      LeadGoesWell(s);
      if GoesWell(s) {
        WellStoredLog(s);
      }
    } else {
      NeverInitialized(s);
    }
  }

  lemma NeverInitialized(s: Script)
    requires !s.initialized
    ensures RunOf(s).status == None
  {
  }

  lemma LeadGoesWell(s: Script)
    requires s.initialized
    ensures LeadUp(s).finalizes && !LeadUp(s).failed <==> LeadsWell(s)
  {
    hide Fits, FirstStart, LeadUp, ValidModel, RunOf, Controls, Begun;
    NotAcked(s);
    AckedExactly(s);
    if FirstStart(s).1.Acked? {
      AckedLead(s);
    }
  }

  lemma WellStoredLog(s: Script)
    requires GoesWell(s)
    ensures AllDelivered(s.items)
    ensures RunOf(s).log
         == Begun(s) + Patches(s.items)
          + if s.end.Refused? then [] else [EndEvent(LeadUp(s).run.offset + s.complete.issued + 1)]
  {
    hide Fits, FirstStart, LeadUp, ValidModel, RunOf, Controls, Begun;
    LeadGoesWell(s);
    AckedExactly(s);
    AckedLead(s);
    RunLog(s);
    FittingIsDelivered(Begun(s), s.items);
    CompletedControls(LeadUp(s).run, s);
  }

  lemma CompletedControls(r: Run, s: Script)
    ensures !s.complete.raises && !s.end.Cut? ==>
      Controls(r, s, false) == if s.end.Refused? then [] else [EndEvent(r.offset + s.complete.issued + 1)]
  {
  }

  lemma StatusOf(s: Script)
    requires s.initialized
    ensures RunOf(s).status == Some(EventLog.Completed) <==>
      LeadUp(s).finalizes && !LeadUp(s).failed && !s.complete.raises && !s.end.Cut? && s.marked
  {
    LeadUpState(s);
    var lead := LeadUp(s);
    hide LeadUp, Finalize, PhaseOf;
    FinalizeLog(lead.run, s, lead.failed);
  }

  lemma NotAcked(s: Script)
    ensures s.initialized && !FirstStart(s).1.Acked? ==> LeadUp(s).failed
  {
  }

  lemma AckedLead(s: Script)
    requires s.initialized && FirstStart(s).1.Acked?
    ensures
      var lead := LeadUp(s);
      && lead.finalizes == !s.abandoned
      && (lead.failed <==> !LeadsWell(s))
      && (!lead.failed ==> AllDelivered(s.items) && lead.run.log == Begun(s) + Patches(s.items))
  {
    FirstStartState(s);
    var r := FirstStart(s).0;
    hide FirstStart, PhaseOf, ApplyAll, Stream, Fits;
    var r1 := Issue(r, s.prepare.issued);
    assert Live(r1);
    StreamCompletes(r1, s.items, s.ending);
    FittingIsDelivered(r1.log, s.items);
  }

  lemma FittingIsDelivered(log: seq<Event>, items: seq<Item>)
    ensures Fits(log, items) ==> AllDelivered(items)
  {
  }

  /** A stream that yields one block under a number it chose itself, in a run where nothing else goes wrong. */
  function SelfNumbered(model: Fields, n: nat): Script {
    Quiet(model).(items := [Item(0, Some(TextBlock(n)), Acked)])
  }

  function TextBlock(n: nat): Event {
    Event(Set, n, block := Some(map["id" := Str("a"), "type" := Str("text")]))
  }

  lemma TextBlockApplies(model: Fields, n: nat)
    requires ValidModel(model)
    ensures Apply(model, TextBlock(n)).ok
  {
    var block := TextBlock(n).block.value;
    assert !IsReference(block) by {
      assert "id" != "ref" && "type" != "ref";
    }
    assert ValidBlock(block) by {
      assert Get(block, "parent_id") == Null by { assert "id" != "parent_id" && "type" != "parent_id"; }
      assert Get(block, "group_id") == Null by { assert "id" != "group_id" && "type" != "group_id"; }
    }
    hide ValidBlock, FindBlock;
  }

  lemma SelfNumberedFits(model: Fields, n: nat)
    requires ValidModel(model) && n >= 2
    ensures Fits(Begun(SelfNumbered(model, n)), SelfNumbered(model, n).items)
    ensures LeadsWell(SelfNumbered(model, n))
  {
    var s := SelfNumbered(model, n);
    SingleStart(model, 1);
    TextBlockApplies(model, n);
    hide ValidModel, Apply, ApplyAll, ValidEvent;
    ApplyAllPush(Begun(s), TextBlock(n));
    assert Patches(s.items) == [TextBlock(n)];
  }

  lemma SelfNumberedOffset(model: Fields, n: nat)
    requires ValidModel(model) && n >= 2
    ensures LeadUp(SelfNumbered(model, n)).run.offset == 1
  {
    var s := SelfNumbered(model, n);
    SelfNumberedFits(model, n);
    FirstStartState(s);
    AckedExactly(s);
    var r := FirstStart(s).0;
    hide ValidModel, ValidEvent, Apply, ApplyAll, Fits, PhaseOf, FirstStart, Live;
    assert r.offset == 1;
    var r1 := Issue(r, 0);
    assert TakeItem(r1, s.items[0]).0.offset == 1;
    assert s.items[1..] == [];
    assert Stream(r1, s.items, s.ending).0.offset == 1;
  }

  /**
   * The order needs numbers from the emitter. For every valid model and every number from 2 on, a stream that yields
   * one block under that number completes, and its end event is numbered 2: the stored log does not increase.
   */
  lemma SelfNumberedBreaksOrder(model: Fields, n: nat)
    requires ValidModel(model) && n >= 2
    ensures
      var r := RunOf(SelfNumbered(model, n));
      r.status == Some(EventLog.Completed) && r.log == [StartEvent(model, 1), TextBlock(n), EndEvent(2)] &&
        !Increasing(r.log)
  {
    SelfNumberedLog(model, n);
    OutOfOrder(StartEvent(model, 1), n);
  }

  lemma SelfNumberedLog(model: Fields, n: nat)
    requires ValidModel(model) && n >= 2
    ensures
      var r := RunOf(SelfNumbered(model, n));
      r.status == Some(EventLog.Completed) && r.log == [StartEvent(model, 1), TextBlock(n), EndEvent(2)]
  {
    var s := SelfNumbered(model, n);
    SelfNumberedGoesWell(model, n);
    SelfNumberedOffset(model, n);
    hide ValidModel, GoesWell, LeadUp, RunOf, TextBlock, AllDelivered, Begun, Patches;
    CompletedExactly(s);
    SelfNumberedYields(model, n);
  }

  lemma SelfNumberedYields(model: Fields, n: nat)
    requires AllDelivered(SelfNumbered(model, n).items)
    ensures
      var s := SelfNumbered(model, n);
      Begun(s) + Patches(s.items) + [EndEvent(2)] == [StartEvent(model, 1), TextBlock(n), EndEvent(2)]
  {
    assert Patches(SelfNumbered(model, n).items) == [TextBlock(n)];
  }

  lemma SelfNumberedGoesWell(model: Fields, n: nat)
    requires ValidModel(model) && n >= 2
    ensures GoesWell(SelfNumbered(model, n))
  {
    SelfNumberedFits(model, n);
    hide LeadsWell;
  }

  lemma OutOfOrder(first: Event, n: nat)
    requires n >= 2
    ensures !Increasing([first, TextBlock(n), EndEvent(2)])
  {
    var log := [first, TextBlock(n), EndEvent(2)];
    assert log[1].seqNo >= log[2].seqNo;
  }

  /** The terminal events of a finalize that returns. */
  function Tail(r: Run, s: Script, failed: bool): seq<TerminalEvent> {
    var n := r.offset + s.complete.issued + 1;
    if failed || s.complete.raises then
      [TerminalEvent(ErrorEvent(s.failure, n), s.error.Acked?),
        TerminalEvent(EndEvent(n + 1), s.error.Acked? && s.end.Acked?)]
    else [TerminalEvent(EndEvent(n), s.end.Acked?)]
  }

  lemma FinalizeTail(r: Run, s: Script, failed: bool)
    requires !CutShort(s, failed)
    ensures Finalize(r, s, failed).terminal == Tail(r, s, failed)
  {
    hide ErrorEvent;
    assert [] + [TerminalEvent(EndEvent(0), true)] == [TerminalEvent(EndEvent(0), true)];
  }

  predicate EndsTheStream(tail: seq<TerminalEvent>, log: seq<Event>) {
    && tail != [] && tail[|tail| - 1].event.op.End?
    && (forall i :: 0 <= i < |tail| && tail[i].persisted ==> tail[i].event in log)
    && (forall i, j :: 0 <= i < j < |tail| && tail[j].persisted ==> tail[i].persisted)
    && (forall i :: 0 <= i < |tail| - 1 ==> tail[i].event.op.Error?)
  }

  lemma TailIsStored(r: Run, s: Script, failed: bool)
    ensures EndsTheStream(Tail(r, s, failed), Controls(r, s, failed))
  {
    hide ErrorEvent;
    var tail, controls := Tail(r, s, failed), Controls(r, s, failed);
    forall i | 0 <= i < |tail| && tail[i].persisted ensures tail[i].event in controls {
      assert controls[i] == tail[i].event;
    }
  }

  lemma StoredLater(tail: seq<TerminalEvent>, log: seq<Event>, controls: seq<Event>)
    requires EndsTheStream(tail, controls)
    ensures EndsTheStream(tail, log + controls)
  {
  }

  /** The flags, one by one: an event is flagged stored exactly if its publish, and any before it, was acknowledged. */
  predicate FlagsAcked(tail: seq<TerminalEvent>, s: Script, failed: bool) {
    && |tail| == (if failed || s.complete.raises then 2 else 1)
    && (|tail| == 2 ==>
      (tail[0].persisted <==> s.error.Acked?) && (tail[1].persisted <==> s.error.Acked? && s.end.Acked?))
    && (|tail| == 1 ==> (tail[0].persisted <==> s.end.Acked?))
  }

  lemma TailFlags(r: Run, s: Script, failed: bool)
    ensures FlagsAcked(Tail(r, s, failed), s, failed)
  {
    hide ErrorEvent;
  }

  /**
   * What a finalize that returns hands the live consumer: always an end event, last, after the error of a failed run;
   * a flag that says stored is true of the log, and stands exactly where the publish was acknowledged; and no stored
   * event comes after one that is not.
   */
  lemma LiveTail(s: Script)
    requires s.initialized && LeadUp(s).finalizes && !CutShort(s, LeadUp(s).failed)
    ensures EndsTheStream(RunOf(s).terminal, RunOf(s).log)
    ensures FlagsAcked(RunOf(s).terminal, s, LeadUp(s).failed)
  {
    RunLog(s);
    var lead := LeadUp(s);
    hide LeadUp, Finalize, Controls, Tail, EndsTheStream, FlagsAcked;
    FinalizeTail(lead.run, s, lead.failed);
    TailFlags(lead.run, s, lead.failed);
    TailIsStored(lead.run, s, lead.failed);
    StoredLater(Tail(lead.run, s, lead.failed), lead.run.log, Controls(lead.run, s, lead.failed));
  }
}
