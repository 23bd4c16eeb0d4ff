/** The task hash and the event stream, and the three scripts that change them (sdks/go/runner/redis_bridge.go). */
module EventLog {
  import opened Json
  import opened Model
  import opened LuaNumbers

  /** A stream entry id: milliseconds, then a counter within the millisecond. */
  datatype StreamId = StreamId(ms: nat, n: nat)

  const ORIGIN := StreamId(0, 0)

  predicate Before(a: StreamId, b: StreamId) {
    a.ms < b.ms || (a.ms == b.ms && a.n < b.n)
  }

  /** The id the stream generates when the clock reads now: always after the last one. */
  function NextId(last: StreamId, now: nat): (id: StreamId)
    ensures Before(last, id)
  {
    if last.ms < now then StreamId(now, 0) else StreamId(last.ms, last.n + 1)
  }

  /** An event the decoder lets through. */
  type DecodedEvent = e: Event | ValidEvent(e) witness EndEvent(0)

  /**
   * A stored payload: text that decodes into a valid event, or text that does not. encoding tells apart the texts of
   * one event, which differ in spelling or in the fields the event here leaves out; 0 is the one Marshal writes. Either
   * kind carries the sequence number its producer publishes it under.
   */
  datatype Data = Wire(event: DecodedEvent, encoding: nat := 0) | Garbage(text: string, claimedSeq: nat)

  function SeqOf(data: Data): nat {
    match data
    case Wire(event, _) => event.seqNo
    case Garbage(_, claimed) => claimed
  }

  datatype Entry = Entry(cursor: StreamId, data: Data)

  datatype Status = Running | Completed | Failed

  predicate Terminal(status: Status) {
    status != Running
  }

  datatype Hash = Hash(status: Status, lastSeq: nat, initialModel: Json, lastEvent: Data, lastCursor: StreamId)

  datatype Store = Store(hash: Option<Hash>, log: seq<Entry>)

  datatype Reply = Cursor(id: StreamId) | Done | NotFound | Conflict | Invalid

  const EMPTY := Store(None, [])

  function LastId(log: seq<Entry>): StreamId {
    if log == [] then ORIGIN else log[|log| - 1].cursor
  }

  function InitializeScript(s: Store, model: Json, event: Data, seqNo: nat, now: nat): (Store, Reply) {
    if s.hash.Some? then (s, Conflict)
    else
      var id := NextId(LastId(s.log), now);
      (Store(Some(Hash(Running, seqNo, model, event, id)), s.log + [Entry(id, event)]), Cursor(id))
  }

  function PublishScript(s: Store, event: Data, seqNo: nat, now: nat): (Store, Reply) {
    match s.hash
    case None => (s, NotFound)
    case Some(h) =>
      if Double(seqNo) == Double(h.lastSeq) && h.lastEvent == event then (s, Cursor(h.lastCursor))
      else if h.status != Running then (s, Conflict)
      else if Double(seqNo) <= Double(h.lastSeq) then (s, Conflict)
      else
        var id := NextId(LastId(s.log), now);
        var noted := h.(lastSeq := seqNo, lastEvent := event, lastCursor := id);
        (Store(Some(noted), s.log + [Entry(id, event)]), Cursor(id))
  }

  function MarkTerminalScript(s: Store, status: Status): (Store, Reply) {
    if !Terminal(status) then (s, Invalid)
    else match s.hash
      case None => (s, NotFound)
      case Some(h) =>
        if h.status != Running && h.status != status then (s, Conflict)
        else (s.(hash := Some(h.(status := status))), Done)
  }

  /** A producer's call. Publishing passes the event's own sequence number. */
  datatype BridgeCall = Initialize(model: Json, start: Data) | Publish(event: Data) | MarkTerminal(status: Status)

  /** A call, and the stream clock when its script runs. */
  datatype Step = Step(op: BridgeCall, now: nat)

  function Call(s: Store, step: Step): (Store, Reply) {
    match step.op
    case Initialize(model, start) => InitializeScript(s, model, start, SeqOf(start), step.now)
    case Publish(event) => PublishScript(s, event, SeqOf(event), step.now)
    case MarkTerminal(status) => MarkTerminalScript(s, status)
  }

  function Exec(s: Store, step: Step): Store {
    Call(s, step).0
  }

  /** Any interleaving of any number of producers is one sequence of atomic calls. */
  function Run(s: Store, steps: seq<Step>): (r: Store)
    decreases |steps|
  {
    if steps == [] then s else Exec(Run(s, steps[..|steps| - 1]), steps[|steps| - 1])
  }

  predicate Increasing(log: seq<Entry>) {
    && (forall i :: 0 <= i < |log| ==> Before(ORIGIN, log[i].cursor))
    && (forall i, j :: 0 <= i < j < |log| ==>
      SeqOf(log[i].data) < SeqOf(log[j].data) && Before(log[i].cursor, log[j].cursor))
  }

  /** The hash describes the last entry of the log. */
  predicate Describes(h: Hash, log: seq<Entry>) {
    && log != []
    && var last := log[|log| - 1];
    && h.lastCursor == last.cursor && h.lastEvent == last.data && h.lastSeq == SeqOf(last.data)
  }

  predicate LogInv(s: Store) {
    && Increasing(s.log)
    && match s.hash
       case None => s.log == []
       case Some(h) => Describes(h, s.log)
  }

  /** After: the entries a read past this cursor can return. Through: the entries up to and including it. */
  function EntriesAfter(log: seq<Entry>, cursor: StreamId): (r: seq<Entry>) {
    if log == [] || Before(cursor, log[0].cursor) then log else EntriesAfter(log[1..], cursor)
  }

  function EntriesThrough(log: seq<Entry>, cursor: StreamId): (r: seq<Entry>) {
    if log == [] || Before(cursor, log[0].cursor) then [] else [log[0]] + EntriesThrough(log[1..], cursor)
  }

  lemma {:induction false} ThroughAndAfter(log: seq<Entry>, cursor: StreamId)
    ensures EntriesThrough(log, cursor) + EntriesAfter(log, cursor) == log
    decreases |log|
  {
    if log != [] && !Before(cursor, log[0].cursor) {
      ThroughAndAfter(log[1..], cursor);
      var through, after := EntriesThrough(log[1..], cursor), EntriesAfter(log[1..], cursor);
      assert [log[0]] + through + after == [log[0]] + (through + after) == log;
    }
  }

  lemma AllBefore(log: seq<Entry>, cursor: StreamId)
    requires Increasing(log) && (log != [] ==> Before(cursor, log[0].cursor))
    ensures forall k :: 0 <= k < |log| ==> Before(cursor, log[k].cursor)
  {
  }

  lemma TailIncreases(log: seq<Entry>)
    requires Increasing(log) && log != []
    ensures Increasing(log[1..])
  {
  }

  /** On an increasing log, through holds exactly the entries whose cursor is not after this one. */
  lemma {:induction false} ThroughExactly(log: seq<Entry>, cursor: StreamId)
    requires Increasing(log)
    ensures forall k :: 0 <= k < |log| ==> (k < |EntriesThrough(log, cursor)| <==> !Before(cursor, log[k].cursor))
    decreases |log|
  {
    if log == [] {
    } else if Before(cursor, log[0].cursor) {
      AllBefore(log, cursor);
    } else {
      TailIncreases(log);
      ThroughExactly(log[1..], cursor);
      hide Increasing;
      forall k | 0 <= k < |log| ensures k < |EntriesThrough(log, cursor)| <==> !Before(cursor, log[k].cursor) {
        assert k > 0 ==> log[k] == log[1..][k - 1];
      }
    }
  }

  /** On an increasing log, the cursor of an entry cuts the log right after that entry. */
  lemma {:induction false} CursorCuts(log: seq<Entry>, i: nat)
    requires Increasing(log) && i < |log|
    ensures EntriesThrough(log, log[i].cursor) == log[..i + 1]
    ensures EntriesAfter(log, log[i].cursor) == log[i + 1..]
  {
    var cursor := log[i].cursor;
    assert !Before(cursor, log[0].cursor);
    if i == 0 {
      assert log[1..] == [] || log[1..][0] == log[1];
      assert EntriesThrough(log[1..], cursor) == [] && EntriesAfter(log[1..], cursor) == log[1..];
    } else {
      assert log[1..][i - 1] == log[i];
      CursorCuts(log[1..], i - 1);
      assert log[..i + 1] == [log[0]] + log[1..][..i];
    }
  }

  lemma OriginCutsNothing(log: seq<Entry>)
    requires Increasing(log)
    ensures EntriesAfter(log, ORIGIN) == log
  {
  }
}

/** What every interleaving of bridge calls keeps. */
module EventLogLaws {
  import opened LuaNumbers
  import opened EventLog

  /** Accepting by rounded comparison still means strictly greater. */
  lemma RoundedGreaterIsGreater(seqNo: nat, last: nat)
    requires Double(seqNo) > Double(last)
    ensures seqNo > last
  {
    if seqNo <= last {
      DoubleIsMonotone(seqNo, last);
    }
  }

  lemma AppendKeepsIncreasing(log: seq<Entry>, entry: Entry)
    requires Increasing(log)
    requires Before(LastId(log), entry.cursor)
    requires log != [] ==> SeqOf(log[|log| - 1].data) < SeqOf(entry.data)
    ensures Increasing(log + [entry])
  {
    var longer := log + [entry];
    forall i | 0 <= i < |log|
      ensures SeqOf(longer[i].data) < SeqOf(entry.data) && Before(longer[i].cursor, entry.cursor)
    {
      assert longer[i] == log[i];
      assert i < |log| - 1 ==> SeqOf(log[i].data) < SeqOf(log[|log| - 1].data);
    }
  }

  lemma StepKeepsLogInv(s: Store, step: Step)
    requires LogInv(s)
    ensures LogInv(Exec(s, step))
    ensures s.log <= Exec(s, step).log
  {
    if step.op.Publish? && Exec(s, step) != s {
      RoundedGreaterIsGreater(SeqOf(step.op.event), s.hash.value.lastSeq);
    }
    if step.op.Initialize? || step.op.Publish? {
      var event := if step.op.Initialize? then step.op.start else step.op.event;
      if Exec(s, step) != s {
        AppendKeepsIncreasing(s.log, Entry(NextId(LastId(s.log), step.now), event));
      }
    }
  }

  /** Over every interleaving: the log only grows, stays increasing, and the hash describes its last entry. */
  lemma {:induction false} RunKeepsLogInv(s: Store, steps: seq<Step>)
    requires LogInv(s)
    ensures LogInv(Run(s, steps))
    ensures s.log <= Run(s, steps).log
    ensures s.hash.Some? ==> Run(s, steps).hash.Some?
    decreases |steps|
  {
    if steps != [] {
      var init := steps[..|steps| - 1];
      RunKeepsLogInv(s, init);
      StepKeepsLogInv(Run(s, init), steps[|steps| - 1]);
    }
  }

  /** A terminal task never changes again. */
  lemma {:induction false} TerminalIsFrozen(s: Store, steps: seq<Step>)
    requires s.hash.Some? && Terminal(s.hash.value.status)
    ensures Run(s, steps) == s
    decreases |steps|
  {
    if steps != [] {
      TerminalIsFrozen(s, steps[..|steps| - 1]);
    }
  }

  /** While a task runs, a new event is stored exactly when its rounded number is greater. */
  lemma AcceptedExactly(s: Store, event: Data, now: nat)
    requires LogInv(s) && s.hash.Some? && s.hash.value.status == Running
    ensures
      var after := Exec(s, Step(Publish(event), now));
      if Double(SeqOf(event)) > Double(s.hash.value.lastSeq)
      then after.log == s.log + [Entry(after.hash.value.lastCursor, event)]
      else after == s
  {
  }

  /** Up to 2^53 the rounded comparison is the exact one. */
  lemma AcceptedExactlyBelow53Bits(s: Store, event: Data, now: nat)
    requires LogInv(s) && s.hash.Some? && s.hash.value.status == Running
    requires SeqOf(event) <= EXACT && s.hash.value.lastSeq <= EXACT
    ensures |Exec(s, Step(Publish(event), now)).log| > |s.log| <==> SeqOf(event) > s.hash.value.lastSeq
  {
    DoubleIsExact(SeqOf(event));
    DoubleIsExact(s.hash.value.lastSeq);
  }

  /** Above it, a greater sequence number can be refused: the first such pair. */
  lemma GreaterCanBeRefused(s: Store, event: Data, now: nat)
    requires s.hash.Some? && s.hash.value.lastSeq == EXACT && SeqOf(event) == EXACT + 1
    requires s.hash.value.status == Running && s.hash.value.lastEvent != event
    ensures Call(s, Step(Publish(event), now)) == (s, Conflict)
  {
    DoubleIsExact(EXACT);
    assert Spacing(EXACT + 1) == 2 * Spacing((EXACT + 1) / 2) == 2;
  }

  // ---------------------------------------------------------------------------------------------
  // Retries

  /** A call that can no longer change anything. */
  predicate Settled(s: Store, op: BridgeCall) {
    match op
    case Initialize(_, _) => s.hash.Some?
    case Publish(event) =>
      s.hash.Some? && (Terminal(s.hash.value.status) || Double(SeqOf(event)) <= Double(s.hash.value.lastSeq))
    case MarkTerminal(status) => !Terminal(status) || (s.hash.Some? && Terminal(s.hash.value.status))
  }

  lemma SettledHasNoEffect(s: Store, step: Step)
    requires Settled(s, step.op)
    ensures Exec(s, step) == s
  {
  }

  lemma SettledStays(s: Store, op: BridgeCall, step: Step)
    requires Settled(s, op)
    ensures Settled(Exec(s, step), op)
  {
  }

  /** Calling settles: on an initialized task, whatever the answer was, the same call again does nothing. */
  lemma CallSettles(s: Store, step: Step)
    requires s.hash.Some?
    ensures Settled(Exec(s, step), step.op)
  {
  }

  lemma InitializeSettles(s: Store, step: Step)
    requires step.op.Initialize?
    ensures Settled(Exec(s, step), step.op)
  {
  }

  /**
   * A call among these steps that left the task initialized, or found it so: from then on the same call does nothing.
   */
  predicate Made(s: Store, steps: seq<Step>, i: nat)
    requires i < |steps|
  {
    Run(s, steps[..i + 1]).hash.Some?
  }

  /** The run without the calls already made: every repeat of one is dropped, wherever it is. */
  function WithoutRepeats(s: Store, steps: seq<Step>): (r: seq<Step>)
    decreases |steps|
  {
    if steps == [] then []
    else
      var init, last := steps[..|steps| - 1], steps[|steps| - 1];
      if exists i :: 0 <= i < |init| && init[i].op == last.op && Made(s, init, i) then WithoutRepeats(s, init)
      else WithoutRepeats(s, init) + [last]
  }

  lemma {:induction false} MadeCallsAreSettled(s: Store, steps: seq<Step>, i: nat)
    requires i < |steps| && Made(s, steps, i)
    ensures Settled(Run(s, steps), steps[i].op)
    decreases |steps|
  {
    var init, last := steps[..|steps| - 1], steps[|steps| - 1];
    if i < |init| {
      assert init[..i + 1] == steps[..i + 1];
      MadeCallsAreSettled(s, init, i);
      SettledStays(Run(s, init), steps[i].op, last);
    } else {
      assert steps[..i + 1] == steps;
      if Run(s, init).hash.Some? {
        CallSettles(Run(s, init), last);
      } else {
        InitializeSettles(Run(s, init), last);
      }
    }
  }

  /**
   * Producers may repeat calls as often and as late as they like, from any state: the task ends as if each call was
   * made once. Only a call answered before the task exists does not count as made.
   */
  lemma {:induction false} RetriesRefine(s: Store, steps: seq<Step>)
    ensures Run(s, steps) == Run(s, WithoutRepeats(s, steps))
    decreases |steps|
  {
    if steps != [] {
      var init, last := steps[..|steps| - 1], steps[|steps| - 1];
      RetriesRefine(s, init);
      if i :| 0 <= i < |init| && init[i].op == last.op && Made(s, init, i) {
        MadeCallsAreSettled(s, init, i);
        SettledHasNoEffect(Run(s, init), last);
      } else {
        var kept := WithoutRepeats(s, init);
        assert (kept + [last])[..|kept|] == kept;
      }
    }
  }

  /** Repeating the last accepted publish answers the same cursor, even once the task is terminal. */
  lemma RepeatedPublishAnswersSame(s: Store, event: Data, now: nat, status: Status, later: nat)
    requires Call(s, Step(Publish(event), now)).1.Cursor?
    ensures
      var (after, reply) := Call(s, Step(Publish(event), now));
      && Call(after, Step(Publish(event), later)) == (after, reply)
      && var ended := Exec(after, Step(MarkTerminal(status), later));
      Call(ended, Step(Publish(event), later)) == (ended, reply)
  {
  }
}
