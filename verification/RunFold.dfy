/** What a run has stored and applied when complete is called, event by event. */
module RunFold {
  import opened Json
  import opened Model
  import opened Reducer
  import opened RunSpec
  import opened RunLaws
  import opened RunOutcomes
  import opened RunOrder

  /**
   * After this log, the stream loop applies the item: a set or append, numbered past the log, that the reducer accepts.
   */
  predicate Applies(log: seq<Event>, item: Item) {
    && item.patch.Some?
    && (item.patch.value.op.Set? || item.patch.value.op.Append?)
    && Increasing(log + [item.patch.value])
    && ApplyAll(map[], log + [item.patch.value]).ok
  }

  /** How many items are applied, published and acknowledged, one after another. */
  function Reached(log: seq<Event>, items: seq<Item>): (k: nat)
    ensures k <= |items|
    decreases |items|
  {
    if items == [] || !Applies(log, items[0]) || !items[0].attempt.Acked? then 0
    else 1 + Reached(log + [items[0].patch.value], items[1..])
  }

  lemma {:induction false} ReachedIsDelivered(log: seq<Event>, items: seq<Item>)
    ensures AllDelivered(items[..Reached(log, items)])
    decreases |items|
  {
    hide ApplyAll, Increasing;
    if items != [] && Applies(log, items[0]) && items[0].attempt.Acked? {
      var longer, k := log + [items[0].patch.value], Reached(log, items);
      ReachedIsDelivered(longer, items[1..]);
      assert items[..k] == [items[0]] + items[1..][..k - 1];
    }
  }

  lemma FitsOne(log: seq<Event>, item: Item)
    ensures Fits(log, [item]) <==> Applies(log, item) && item.attempt.Acked?
  {
    hide ApplyAll, Increasing;
    assert [item][0] == item;
    if item.patch.Some? {
      assert AllDelivered([item]) ==> Patches([item]) == [item.patch.value];
    }
  }

  /** That is the longest prefix of the items that fits onto the log: every shorter one does, and no longer one. */
  lemma {:induction false} ReachedIsLongest(log: seq<Event>, items: seq<Item>, k: nat)
    requires k <= |items| && Increasing(log) && ApplyAll(map[], log).ok
    ensures Fits(log, items[..k]) <==> k <= Reached(log, items)
    decreases |items|
  {
    if k == 0 {
      NothingFits(log, items);
    } else {
      FitsOne(log, items[0]);
      FitsMore(log, items, k);
      if Applies(log, items[0]) && items[0].attempt.Acked? {
        hide Fits, ApplyAll, Increasing;
        ReachedIsLongest(log + [items[0].patch.value], items[1..], k - 1);
      }
    }
  }

  lemma NothingFits(log: seq<Event>, items: seq<Item>)
    requires Increasing(log) && ApplyAll(map[], log).ok
    ensures Fits(log, items[..0])
  {
    hide ApplyAll, Increasing;
    assert log + Patches(items[..0]) == log;
  }

  lemma FitsMore(log: seq<Event>, items: seq<Item>, k: nat)
    requires 1 <= k <= |items|
    ensures !Fits(log, [items[0]]) ==> !Fits(log, items[..k])
    ensures Fits(log, [items[0]]) ==>
      && [items[0]][0].patch.Some?
      && (Fits(log, items[..k]) <==> Fits(log + [items[0].patch.value], items[1..][..k - 1]))
  {
    hide Fits;
    var prefix := items[..k];
    FitsTail(log, prefix);
    assert prefix[0] == items[0] && prefix[1..] == items[1..][..k - 1];
  }

  /** The log once they are stored. */
  function Done(log: seq<Event>, items: seq<Item>): seq<Event> {
    ReachedIsDelivered(log, items);
    log + Patches(items[..Reached(log, items)])
  }

  /** The one item behind them whose turn ended the loop, if the reducer accepted it. */
  function Last(log: seq<Event>, items: seq<Item>): (r: Option<Item>)
    ensures r.Some? ==> r.value.patch.Some?
  {
    var k := Reached(log, items);
    if k < |items| && Applies(Done(log, items), items[k]) then Some(items[k]) else None
  }

  function StoredLast(last: Option<Item>): seq<Event>
    requires last.Some? ==> last.value.patch.Some?
  {
    if last.Some? && Stores(last.value.attempt) then [last.value.patch.value] else []
  }

  function AppliedLast(last: Option<Item>): seq<Event>
    requires last.Some? ==> last.value.patch.Some?
  {
    if last.Some? then [last.value.patch.value] else []
  }

  /** One turn: the item is applied and perhaps stored, or the run's log and snapshot stay as they were. */
  lemma TurnFolds(r: Run, item: Item)
    requires Live(r)
    ensures
      var (r1, goesOn) := TakeItem(r, item);
      && (goesOn <==> Applies(r.log, item) && item.attempt.Acked?)
      && (if Applies(r.log, item) then
            && r1.log == (if Stores(item.attempt) then r.log + [item.patch.value] else r.log)
            && ApplyAll(map[], r.log + [item.patch.value]) == Accept(r1.snapshot)
          else r1.log == r.log && r1.snapshot == r.snapshot)
  {
    hide Apply, ApplyAll, PhaseOf;
    if item.patch.Some? && (item.patch.value.op.Set? || item.patch.value.op.Append?) {
      var e := item.patch.value;
      ApplyAllPush(r.log, e);
      ApplyKeepsBlocks(r.snapshot, e);
      if e.seqNo > r.published {
        IncreasingPush(r.log, e);
      } else {
        assert (r.log + [e])[|r.log|] == e && (r.log + [e])[|r.log| - 1] == r.log[|r.log| - 1];
      }
    }
  }

  /** A first item that goes through: the rest is reached from the longer log. */
  lemma ReachedTail(log: seq<Event>, items: seq<Item>)
    requires items != [] && Applies(log, items[0]) && items[0].attempt.Acked?
    ensures Reached(log, items) == 1 + Reached(log + [items[0].patch.value], items[1..])
    ensures Done(log, items) == Done(log + [items[0].patch.value], items[1..])
  {
    hide ApplyAll, Increasing;
    ReachedIsDelivered(log, items);
    ReachedIsDelivered(log + [items[0].patch.value], items[1..]);
    DoneTail(log, items, Reached(log, items) - 1);
  }

  lemma DoneTail(log: seq<Event>, items: seq<Item>, k: nat)
    requires k < |items| && AllDelivered(items[..k + 1]) && AllDelivered(items[1..][..k]) && items[0].patch.Some?
    ensures log + Patches(items[..k + 1]) == log + [items[0].patch.value] + Patches(items[1..][..k])
  {
    var e, done := items[0].patch.value, items[..k + 1];
    assert done[0] == items[0] && done[1..] == items[1..][..k];
    PatchesTail(done);
    assert log + ([e] + Patches(items[1..][..k])) == log + [e] + Patches(items[1..][..k]);
  }

  lemma LastTail(log: seq<Event>, items: seq<Item>)
    requires items != [] && Applies(log, items[0]) && items[0].attempt.Acked?
    ensures Last(log, items) == Last(log + [items[0].patch.value], items[1..])
    ensures Done(log, items) == Done(log + [items[0].patch.value], items[1..])
  {
    ReachedTail(log, items);
    hide Applies, Reached, Done;
  }

  /**
   * The stream loop: it stores what it reached and perhaps the last item, and its snapshot is the fold of all it
   * applied.
   */
  lemma {:induction false} StreamFolds(r: Run, items: seq<Item>, ending: Callback)
    requires Live(r)
    ensures
      var r1, last, done := Stream(r, items, ending).0, Last(r.log, items), Done(r.log, items);
      && (last.Some? ==> last.value.patch.Some?)
      && r1.log == done + StoredLast(last)
      && ApplyAll(map[], done + AppliedLast(last)) == Accept(r1.snapshot)
    decreases |items|
  {
    assert items[..0] == [];
    assert r.log + Patches(items[..0]) == r.log && r.log + [] == r.log;
    if items != [] {
      TurnFolds(r, items[0]);
      TurnKeepsOrder(r, items[0]);
      hide Live, TakeItem, Applies, ApplyAll;
      var (r1, goesOn) := TakeItem(r, items[0]);
      if goesOn {
        StreamFolds(r1, items[1..], ending);
        LastTail(r.log, items);
      }
    } else {
      hide ApplyAll;
    }
  }

  /** The items the stream loop gets to see. */
  function Consumed(s: Script): seq<Item> {
    if s.prepare.raises then [] else s.items
  }

  /** The item whose turn ended the loop, if it was applied. */
  function LastItem(s: Script): (r: Option<Item>)
    ensures r.Some? ==> r.value.patch.Some?
  {
    Last(Begun(s), Consumed(s))
  }

  /** What a run has stored when finalize begins: the start and every item reached, or the tries at a start. */
  function LeadLog(s: Script): seq<Event> {
    if StartAcked(s) then Done(Begun(s), Consumed(s)) + StoredLast(LastItem(s)) else StartsStored(s)
  }

  /** The event applied last, when its publish did not store it: the item that ended the loop, or the second start. */
  function Unstored(s: Script): (r: seq<Event>)
    ensures |r| <= 1
  {
    if StartAcked(s) then
      if LastItem(s).Some? && !Stores(LastItem(s).value.attempt) then [LastItem(s).value.patch.value] else []
    else if ValidModel(s.model) && !Stores(s.retryStart) then [StartEvent(s.model, FirstStart(s).0.offset + 1)]
    else []
  }

  lemma AckedFold(s: Script)
    requires s.initialized && StartAcked(s)
    ensures LeadUp(s).run.log == LeadLog(s)
    ensures ApplyAll(map[], LeadLog(s) + Unstored(s)) == Accept(LeadUp(s).run.snapshot)
  {
    FirstStartState(s);
    var r := FirstStart(s).0;
    hide FirstStart, PhaseOf, ApplyAll, ValidModel, Done, Last;
    var r1 := Issue(r, s.prepare.issued);
    assert Live(r1) && r1.log == Begun(s);
    StreamFolds(r1, Consumed(s), s.ending);
    NothingConsumed(Begun(s));
    LastParts(Done(Begun(s), Consumed(s)), LastItem(s));
    assert s.prepare.raises ==> LeadUp(s).run.log == Begun(s) + [];
  }

  lemma NothingConsumed(log: seq<Event>)
    ensures Done(log, []) == log && Last(log, []) == None
  {
    assert log + [] == log;
  }

  lemma LastParts(done: seq<Event>, last: Option<Item>)
    requires last.Some? ==> last.value.patch.Some?
    ensures done + StoredLast(last)
      + (if last.Some? && !Stores(last.value.attempt) then [last.value.patch.value] else [])
         == done + AppliedLast(last)
  {
  }

  lemma FailedFold(s: Script)
    requires s.initialized && !StartAcked(s)
    ensures LeadUp(s).run.log == LeadLog(s)
    ensures ApplyAll(map[], LeadLog(s) + Unstored(s)) == Accept(LeadUp(s).run.snapshot)
  {
    AckedExactly(s);
    FailedStart(s);
    EmptyLog();
    var first, retry := s.preStart.issued + 1, FirstStart(s).0.offset + 1;
    var all := LeadLog(s) + Unstored(s);
    if ValidModel(s.model) {
      SingleStart(s.model, retry);
      TwoStarts(s.model, first, retry);
      hide ValidModel, FirstStart, LeadUp, ApplyAll, PhaseOf;
      assert all == [StartEvent(s.model, retry)] || all == [StartEvent(s.model, first), StartEvent(s.model, retry)];
    } else {
      hide ValidModel, FirstStart, LeadUp, ApplyAll;
      assert all == [];
    }
  }

  lemma LeadFolds(s: Script)
    requires s.initialized
    ensures LeadUp(s).run.log == LeadLog(s)
    ensures ApplyAll(map[], LeadLog(s) + Unstored(s)) == Accept(LeadUp(s).run.snapshot)
  {
    if StartAcked(s) {
      AckedFold(s);
    } else {
      FailedFold(s);
    }
  }

  /**
   * When complete is called, the log holds exactly the start and every item reached, and the item that ended the loop
   * if its publish stored it; or, when no start was acknowledged, the tries at one that were stored. The snapshot
   * complete is handed is the fold of that log, and of the one event applied after it whose publish did not store it,
   * if there is one. A run that never gets to finalize stores that much and no more. A run that never initialized hands
   * out no snapshot and stores nothing.
   */
  lemma CompleteSeesTheFold(s: Script)
    ensures !s.initialized ==> RunOf(s).log == [] && RunOf(s).completions == [None]
    ensures s.initialized && !LeadUp(s).finalizes ==> RunOf(s).log == LeadLog(s)
    ensures s.initialized && LeadUp(s).finalizes ==>
      var fold := ApplyAll(map[], LeadLog(s) + Unstored(s));
      && fold.ok && RunOf(s).completions == [Some(fold.state)]
      && RunOf(s).log == LeadLog(s) + Controls(LeadUp(s).run, s, LeadUp(s).failed)
  {
    if s.initialized {
      LeadUpState(s);
      RunLog(s);
      LeadFolds(s);
      var lead := LeadUp(s);
      hide LeadUp, Finalize, Controls, StartAcked, LeadLog, Unstored, ApplyAll;
      FinalizeLog(lead.run, s, lead.failed);
      assert [] + [Some(lead.run.snapshot)] == [Some(lead.run.snapshot)];
      assert lead.run.log + [] == lead.run.log;
    }
  }

  // ---------------------------------------------------------------------------------------------
  // Numbers

  function Sum(items: seq<Item>): nat {
    if items == [] then 0 else items[0].issued + Sum(items[1..])
  }

  /** The numbers taken while the stream runs: by every item up to the one that ended it, or by all and the ending. */
  function Taken(log: seq<Event>, items: seq<Item>, ending: Callback): nat {
    var k := Reached(log, items);
    if k < |items| then Sum(items[..k + 1]) else Sum(items) + ending.issued
  }

  lemma SumHead(items: seq<Item>, k: nat)
    requires 1 <= k <= |items|
    ensures Sum(items[..k]) == items[0].issued + Sum(items[1..][..k - 1])
  {
    assert items[..k][1..] == items[1..][..k - 1];
  }

  lemma TakenTail(log: seq<Event>, items: seq<Item>, ending: Callback)
    requires items != [] && Applies(log, items[0]) && items[0].attempt.Acked?
    ensures Taken(log, items, ending) == items[0].issued + Taken(log + [items[0].patch.value], items[1..], ending)
  {
    ReachedTail(log, items);
    hide Applies;
    var k := Reached(log, items);
    if k < |items| {
      SumHead(items, k + 1);
    }
  }

  lemma TakenAtOnce(log: seq<Event>, items: seq<Item>, ending: Callback)
    requires items != [] && !(Applies(log, items[0]) && items[0].attempt.Acked?)
    ensures Taken(log, items, ending) == items[0].issued
  {
    assert Reached(log, items) == 0;
    hide Applies, Reached;
    assert items[..1] == [items[0]] && [items[0]][1..] == [];
    assert Sum([items[0]]) == items[0].issued + Sum([]);
  }

  lemma TurnTakes(r: Run, item: Item)
    ensures TakeItem(r, item).0.offset == r.offset + item.issued
  {
    hide Apply;
  }

  lemma {:induction false} StreamTakes(r: Run, items: seq<Item>, ending: Callback)
    requires Live(r)
    ensures Stream(r, items, ending).0.offset == r.offset + Taken(r.log, items, ending)
    decreases |items|
  {
    if items != [] {
      TurnFolds(r, items[0]);
      TurnKeepsOrder(r, items[0]);
      TurnTakes(r, items[0]);
      hide Live, TakeItem, Applies, ApplyAll, Taken;
      var (r1, goesOn) := TakeItem(r, items[0]);
      if goesOn {
        StreamTakes(r1, items[1..], ending);
        TakenTail(r.log, items, ending);
      } else {
        TakenAtOnce(r.log, items, ending);
      }
    }
  }

  /** How many numbers a run has taken when finalize begins. */
  function LeadOffset(s: Script): nat {
    if !StartAcked(s) then s.preStart.issued + (if s.preStart.raises then 1 else 2)
    else
      s.preStart.issued + 1 + s.prepare.issued
      + (if s.prepare.raises then 0 else Taken(Begun(s), s.items, s.ending))
  }

  lemma FirstStartTakes(s: Script)
    ensures FirstStart(s).0.offset == s.preStart.issued + if s.preStart.raises then 0 else 1
  {
    hide ValidModel, ValidEvent, Apply;
  }

  lemma LeadTakes(s: Script)
    requires s.initialized
    ensures LeadUp(s).run.offset == LeadOffset(s)
  {
    FirstStartTakes(s);
    FirstStartState(s);
    AckedExactly(s);
    if StartAcked(s) {
      var r := FirstStart(s).0;
      hide FirstStart, PhaseOf, ApplyAll, ValidModel, Taken;
      var r1 := Issue(r, s.prepare.issued);
      assert Live(r1) && r1.log == Begun(s);
      StreamTakes(r1, s.items, s.ending);
    } else {
      FailedStart(s);
    }
  }

  predicate CarriesFailure(e: Event, failure: Fields) {
    e.mask == "meta.error" && e.meta == Some(map["error" := Obj(failure)])
  }

  /**
   * The events finalize stores after the lead-up's are numbered one after another, from the first number that neither
   * the start, the callbacks nor the stream took; an error among them carries the run's failure.
   */
  lemma ControlsAreNumberedOn(s: Script)
    requires s.initialized && LeadUp(s).finalizes
    ensures
      var log, lead := RunOf(s).log, LeadLog(s);
      && lead <= log
      && forall i :: |lead| <= i < |log| ==>
        && log[i].seqNo == LeadOffset(s) + s.complete.issued + 1 + (i - |lead|)
        && (log[i].op.End? || (log[i].op.Error? && CarriesFailure(log[i], s.failure)))
  {
    LeadTakes(s);
    CompleteSeesTheFold(s);
    hide RunOf, LeadUp, LeadOffset, LeadLog;
    ControlsFollow(LeadLog(s), LeadUp(s).run, s, LeadUp(s).failed);
  }

  lemma ControlsFollow(log: seq<Event>, r: Run, s: Script, failed: bool)
    ensures
      var controls := Controls(r, s, failed);
      forall i :: |log| <= i < |log + controls| ==>
        && (log + controls)[i].seqNo == r.offset + s.complete.issued + 1 + (i - |log|)
        && ((log + controls)[i].op.End?
          || ((log + controls)[i].op.Error? && CarriesFailure((log + controls)[i], s.failure)))
  {
  }

  /** So are the events a returning finalize hands the live consumer, stored or not. */
  lemma TailIsNumberedOn(s: Script)
    requires s.initialized && LeadUp(s).finalizes && !CutShort(s, LeadUp(s).failed)
    ensures forall i :: 0 <= i < |RunOf(s).terminal| ==>
      var e := RunOf(s).terminal[i].event;
      && e.seqNo == LeadOffset(s) + s.complete.issued + 1 + i
      && (e.op.End? || (e.op.Error? && CarriesFailure(e, s.failure)))
  {
    LeadTakes(s);
    var lead := LeadUp(s);
    hide LeadUp, LeadOffset, Finalize;
    FinalizeTail(lead.run, s, lead.failed);
  }
}
