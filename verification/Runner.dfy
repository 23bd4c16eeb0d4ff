/**
 * The Runner's run as it changes its context, its emitter and the task's log
 * (sdks/python/src/agentue/runner/runner.py).
 */
module RunnerState {
  import opened Json
  import opened Model
  import opened Reducer
  import EventLog
  import opened RunSpec
  import opened Emitter

  class Runner {
    const emitter: PatchEmitter
    var snapshot: Fields
    var publishedSeq: nat
    var log: seq<Event>
    var completions: seq<Option<Fields>>
    var terminal: seq<TerminalEvent>
    var status: Option<EventLog.Status>

    ghost function View(): Run
      reads this, emitter
    {
      Run(emitter.offset, publishedSeq, snapshot, log, completions, terminal, status)
    }

    constructor ()
      ensures View() == FRESH && fresh(emitter)
    {
      emitter := new PatchEmitter(0);
      snapshot, publishedSeq, log := map[], 0, [];
      completions, terminal, status := [], [], None;
    }

    /** An application callback at work on the context's emitter. */
    method Callbacks(issued: nat)
      modifies emitter
      ensures View() == Issue(old(View()), issued)
    {
      for i := 0 to issued
        invariant View() == Issue(old(View()), i)
      {
        var _ := emitter.NextOffset();
      }
    }

    /** The bridge's publish, and the sequence number remembered only once it has returned. */
    method PublishEvent(e: Event, a: Attempt)
      modifies this`log, this`publishedSeq
      ensures View() == Publish(old(View()), e, a)
    {
      if Stores(a) {
        log := log + [e];
      }
      if a.Acked? {
        publishedSeq := e.seqNo;
      }
    }

    method PublishStartEvent(model: Fields, a: Attempt) returns (reply: Attempt)
      modifies this, emitter
      ensures (View(), reply) == PublishStart(old(View()), model, a)
    {
      hide ValidEvent, Apply;
      var e := emitter.Start(model, None);
      if e.None? {
        return Refused;
      }
      var out := Apply(snapshot, e.value);
      snapshot := out.state;
      PublishEvent(e.value, a);
      return a;
    }

    method RunBusiness(s: Script) returns (ok: bool)
      modifies this, emitter
      ensures (View(), ok) == Business(old(View()), s)
    {
      hide Apply;
      Callbacks(s.prepare.issued);
      if s.prepare.raises {
        return false;
      }
      ghost var begun := View();
      for i := 0 to |s.items|
        invariant Stream(View(), s.items[i..], s.ending) == Stream(begun, s.items, s.ending)
      {
        assert s.items[i..][1..] == s.items[i + 1..];
        var item := s.items[i];
        Callbacks(item.issued);
        if item.patch.None? {
          return false;
        }
        var event := item.patch.value;
        if !(event.op.Set? || event.op.Append?) {
          return false;
        }
        if event.seqNo <= publishedSeq {
          return false;
        }
        var out := Apply(snapshot, event);
        snapshot := out.state;
        if !out.ok {
          return false;
        }
        PublishEvent(event, item.attempt);
        if !item.attempt.Acked? {
          return false;
        }
      }
      assert s.items[|s.items|..] == [];
      Callbacks(s.ending.issued);
      return !s.ending.raises;
    }

    /** The end event and the terminal status, after complete and any error event. */
    method Finish(s: Script, failed: bool, errors: seq<TerminalEvent>, persisted: bool)
      modifies this, emitter
      ensures View() == FinishRun(old(View()), s, failed, errors, persisted)
    {
      var e := emitter.End();
      var endPersisted := false;
      if persisted {
        PublishEvent(e, s.end);
        if s.end.Cut? {
          return;
        }
        endPersisted := s.end.Acked?;
      }
      terminal := errors + [TerminalEvent(e, endPersisted)];
      if s.marked {
        status := Some(if failed then EventLog.Failed else EventLog.Completed);
      }
    }

    method FinalizeRun(s: Script, failed: bool)
      modifies this, emitter
      ensures View() == Finalize(old(View()), s, failed)
    {
      hide FinishRun, ValidEvent;
      completions := completions + [Some(snapshot)];
      Callbacks(s.complete.issued);
      if failed || s.complete.raises {
        var blank := ErrorEvent(s.failure, 0);
        var e := emitter.Patch(blank);
        assert e == Some(ErrorEvent(s.failure, emitter.offset));
        PublishEvent(e.value, s.error);
        if s.error.Cut? {
          return;
        }
        Finish(s, true, [TerminalEvent(e.value, s.error.Acked?)], s.error.Acked?);
      } else {
        Finish(s, false, [], true);
      }
    }

    /** The whole run: initialize, pre_start, start (tried twice if need be), business, finalize. */
    method Execute(s: Script)
      requires View() == FRESH
      modifies this, emitter
      ensures View() == RunOf(s)
    {
      hide Finalize, Business, PublishStart;
      if !s.initialized {
        completions := completions + [None];
        assert completions == [None];
        return;
      }
      status := Some(EventLog.Running);
      Callbacks(s.preStart.issued);
      var reply := Refused;
      if !s.preStart.raises {
        reply := PublishStartEvent(s.model, s.firstStart);
      }
      assert (View(), reply) == FirstStart(s);
      if reply.Acked? {
        var ok := RunBusiness(s);
        if s.abandoned {
          return;
        }
        FinalizeRun(s, !ok || s.stopped);
      } else {
        StartUnpublished(s);
        if publishedSeq == 0 {
          reply := PublishStartEvent(s.model, s.retryStart);
          if reply.Cut? {
            return;
          }
        }
        FinalizeRun(s, true);
      }
    }
  }

  /** Nothing counts as published until a start is acknowledged. */
  lemma StartUnpublished(s: Script)
    ensures !FirstStart(s).1.Acked? ==> FirstStart(s).0.published == 0
  {
  }
}
