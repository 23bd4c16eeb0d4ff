/**
 * One run of the Python Runner as a function of everything outside its control: how far each callback advances the
 * emitter and whether it raises, what the stream yields, and how each publish ends
 * (sdks/python/src/agentue/runner/runner.py).
 */
module RunSpec {
  import opened Json
  import opened Model
  import opened Reducer
  import EventLog

  /**
   * How one publish ends. Acked: stored, and the call returns. Refused: not stored, and it raises. Unacked: stored,
   * yet it raises. Cut: the task is cancelled while waiting, before or after the store took place.
   */
  datatype Attempt = Acked | Refused | Unacked | Cut(stored: bool)

  predicate Stores(a: Attempt) {
    a.Acked? || a.Unacked? || (a.Cut? && a.stored)
  }

  /** An application callback: how many sequence numbers it takes from the context's emitter, and whether it raises. */
  datatype Callback = Callback(issued: nat, raises: bool)

  /** A yielded patch, absent when it does not parse as an event, and the fate of its publish. */
  datatype Item = Item(issued: nat, patch: Option<Event>, attempt: Attempt)

  /**
   * stopped: the execute task is cancelled, or its pulse or heartbeat is lost, and it goes on to finalize. abandoned:
   * it never gets there, because it is cancelled before its first step or a second time while it waits for its
   * business, or because the runner has been closed by then.
   */
  datatype Script = Script(
    initialized: bool,
    model: Fields,
    preStart: Callback,
    firstStart: Attempt,
    retryStart: Attempt,
    prepare: Callback,
    items: seq<Item>,
    ending: Callback,
    stopped: bool,
    abandoned: bool,
    complete: Callback,
    failure: Fields,
    error: Attempt,
    end: Attempt,
    marked: bool)

  /** A terminal event kept for the live consumer, and whether the runner knows it to be stored. */
  datatype TerminalEvent = TerminalEvent(event: Event, persisted: bool)

  /** completions holds the snapshot handed to each call of complete. */
  datatype Run = Run(
    offset: nat,
    published: nat,
    snapshot: Fields,
    log: seq<Event>,
    completions: seq<Option<Fields>>,
    terminal: seq<TerminalEvent>,
    status: Option<EventLog.Status>)

  const FRESH := Run(0, 0, map[], [], [], [], None)

  function Issue(r: Run, n: nat): Run {
    r.(offset := r.offset + n)
  }

  function Publish(r: Run, e: Event, a: Attempt): Run {
    r.(log := if Stores(a) then r.log + [e] else r.log, published := if a.Acked? then e.seqNo else r.published)
  }

  /** A start event takes the next sequence number and is applied before it is published. */
  function PublishStart(r: Run, model: Fields, a: Attempt): (Run, Attempt) {
    var r1 := Issue(r, 1);
    var e := StartEvent(model, r1.offset);
    if ValidEvent(e) then (Publish(r1.(snapshot := Apply(r1.snapshot, e).state), e, a), a) else (r1, Refused)
  }

  /** One turn of the stream loop, and whether the loop goes on. */
  function TakeItem(r: Run, item: Item): (Run, bool) {
    var r1 := Issue(r, item.issued);
    match item.patch
    case None => (r1, false)
    case Some(e) =>
      if !(e.op.Set? || e.op.Append?) || e.seqNo <= r1.published then (r1, false)
      else
        var out := Apply(r1.snapshot, e);
        var r2 := r1.(snapshot := out.state);
        if out.ok then (Publish(r2, e, item.attempt), item.attempt.Acked?) else (r2, false)
  }

  /** The stream loop, and whether it ran to the end of the stream without raising. */
  function Stream(r: Run, items: seq<Item>, ending: Callback): (Run, bool)
    decreases |items|
  {
    if items == [] then (Issue(r, ending.issued), !ending.raises)
    else
      var (r1, goesOn) := TakeItem(r, items[0]);
      if goesOn then Stream(r1, items[1..], ending) else (r1, false)
  }

  function Business(r: Run, s: Script): (Run, bool) {
    var r1 := Issue(r, s.prepare.issued);
    if s.prepare.raises then (r1, false) else Stream(r1, s.items, s.ending)
  }

  function ErrorEvent(failure: Fields, seqNo: nat): (e: Event)
    ensures ValidEvent(e) && e.op.Error? && e.seqNo == seqNo
  {
    assert ERROR_MASK == "meta.error";
    Event(Error, seqNo, mask := ERROR_MASK, meta := Some(map["error" := Obj(failure)]))
  }

  /** The end event, unless the error event before it could not be stored; then the status. */
  function FinishRun(r: Run, s: Script, failed: bool, errors: seq<TerminalEvent>, persisted: bool): Run {
    var r1 := Issue(r, 1);
    var e := EndEvent(r1.offset);
    var r2 := if persisted then Publish(r1, e, s.end) else r1;
    if persisted && s.end.Cut? then r2
    else r2.(
      terminal := errors + [TerminalEvent(e, persisted && s.end.Acked?)],
      status := if s.marked then Some(if failed then EventLog.Failed else EventLog.Completed) else r2.status)
  }

  /** complete first, then the error event of a failed run, then the rest. */
  function Finalize(r: Run, s: Script, failed: bool): Run {
    var r1 := Issue(r.(completions := r.completions + [Some(r.snapshot)]), s.complete.issued);
    if !failed && !s.complete.raises then FinishRun(r1, s, false, [], true)
    else
      var r2 := Issue(r1, 1);
      var e := ErrorEvent(s.failure, r2.offset);
      var r3 := Publish(r2, e, s.error);
      if s.error.Cut? then r3
      else FinishRun(r3, s, true, [TerminalEvent(e, s.error.Acked?)], s.error.Acked?)
  }

  /** The first try at the start event, made only if pre_start did not raise. */
  function FirstStart(s: Script): (Run, Attempt) {
    var r := Issue(FRESH.(status := Some(EventLog.Running)), s.preStart.issued);
    if s.preStart.raises then (r, Refused) else PublishStart(r, s.model, s.firstStart)
  }

  predicate StartAcked(s: Script) {
    !s.preStart.raises && ValidModel(s.model) && s.firstStart.Acked?
  }

  /** The state finalize begins from, whether the run has failed by then, and whether finalize is reached at all. */
  datatype Lead = Lead(run: Run, failed: bool, finalizes: bool)

  function LeadUp(s: Script): Lead {
    var (r, first) := FirstStart(s);
    if first.Acked? then
      var (r1, ok) := Business(r, s);
      Lead(r1, !ok || s.stopped || s.abandoned, !s.abandoned)
    else
      var (r1, retry) := PublishStart(r, s.model, s.retryStart);
      Lead(r1, true, !retry.Cut?)
  }

  function RunOf(s: Script): Run {
    if !s.initialized then FRESH.(completions := [None])
    else
      var lead := LeadUp(s);
      if lead.finalizes then Finalize(lead.run, s, lead.failed) else lead.run
  }
}
