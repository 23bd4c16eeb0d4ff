/** The replayer at work, with producers appending between any two of its reads. */
module ReplayerState {
  import opened Json
  import opened Model
  import opened EventLog
  import opened EventLogLaws
  import opened BridgeState
  import opened Replay
  import SnapshotState
  import R = Reducer

  /** The receiving end of one connection: it takes so many deliveries and then refuses. */
  class Client {
    var received: seq<Delivery>
    const capacity: nat

    constructor (capacity: nat)
      ensures received == [] && this.capacity == capacity
    {
      this.capacity := capacity;
      received := [];
    }

    method Deliver(d: Delivery) returns (ok: bool)
      modifies this
      ensures ok <==> |old(received)| < capacity
      ensures received == if ok then old(received) + [d] else old(received)
    {
      if capacity <= |received| {
        return false;
      }
      received := received + [d];
      return true;
    }
  }

  /**
   * What happens around one round of the loop: producer calls before the read and before the state check, and whether a
   * ping is due.
   */
  datatype Turn = Turn(beforeRead: seq<Step>, beforeState: seq<Step>, pingDue: bool)

  /** The loop's own state: deliveries so far, none of them an end, and the number a ping would carry. */
  ghost predicate Following(log: seq<Entry>, resumed: bool, from: nat, upto: nat, ds: seq<Delivery>, before: nat,
      lastSeq: nat) {
    && Deliveries(log, resumed, from, upto, ds, before)
    && NoEnds(ds)
    && NoEndEntries(log, from, upto)
    && lastSeq == LastSeq(ds, before)
  }

  /** The read cursor stands right after the entries consumed so far. */
  predicate StandsAt(log: seq<Entry>, cursor: Option<StreamId>, upto: nat) {
    && upto <= |log|
    && if upto == 0 then !Resuming(cursor) else cursor == Some(log[upto - 1].cursor)
  }

  lemma ReadsTheRest(log: seq<Entry>, cursor: Option<StreamId>, upto: nat)
    requires Increasing(log) && StandsAt(log, cursor, upto)
    ensures EntriesAfter(log, cursor.GetOr(ORIGIN)) == log[upto..]
  {
    if upto == 0 {
      OriginCutsNothing(log);
      assert log[0..] == log;
    } else {
      CursorCuts(log, upto - 1);
    }
  }

  lemma StandsWithin(log: seq<Entry>, cursor: Option<StreamId>, upto: nat)
    requires StandsAt(log, cursor, upto)
    ensures upto <= |log|
  {
  }

  lemma PersistedOne(ds: seq<Delivery>, d: Delivery)
    ensures Persisted(ds + [d]) == Persisted(ds) + (if d.cursor.Some? then [d] else [])
  {
    assert (ds + [d])[..|ds|] == ds;
  }

  lemma InPlaceOneMore(ds: seq<Delivery>, d: Delivery, before: nat)
    requires NoEnds(ds) && forall i :: 0 <= i < |ds| ==> InPlace(ds, i, before)
    ensures forall i :: 0 <= i < |ds| ==> InPlace(ds + [d], i, before)
  {
    forall i | 0 <= i < |ds| ensures InPlace(ds + [d], i, before) {
      assert InPlace(ds, i, before);
      assert (ds + [d])[i] == ds[i] && (ds + [d])[..i] == ds[..i];
    }
  }

  /** One more delivery that is not stored: a ping, or the synthetic end. */
  lemma OneMoreSynthetic(log: seq<Entry>, resumed: bool, from: nat, upto: nat, ds: seq<Delivery>, before: nat,
      lastSeq: nat, e: Event)
    requires Following(log, resumed, from, upto, ds, before, lastSeq)
    requires e == PingEvent(lastSeq) || (e.op.End? && ValidEvent(e))
    ensures Deliveries(log, resumed, from, upto, ds + [Delivery(None, Wire(e))], before)
    ensures e.op.Ping? ==> Following(log, resumed, from, upto, ds + [Delivery(None, Wire(e))], before, lastSeq)
  {
    var d := Delivery(None, Wire(e));
    PersistedOne(ds, d);
    InPlaceOneMore(ds, d, before);
    assert (ds + [d])[|ds|] == d && (ds + [d])[..|ds|] == ds;
    assert InPlace(ds + [d], |ds|, before);
  }

  /** One more stored entry, delivered with its cursor. */
  lemma OneMoreStored(log: seq<Entry>, resumed: bool, from: nat, upto: nat, ds: seq<Delivery>, before: nat,
      lastSeq: nat)
    requires Following(log, resumed, from, upto, ds, before, lastSeq)
    requires upto < |log| && log[upto].data.Wire? && !Skips(resumed, log[upto])
    ensures Deliveries(log, resumed, from, upto + 1, ds + [Delivery(Some(log[upto].cursor), log[upto].data)], before)
    ensures !IsOp(log[upto].data, End) ==>
      Following(log, resumed, from, upto + 1, ds + [Delivery(Some(log[upto].cursor), log[upto].data)], before,
        SeqOf(log[upto].data))
  {
    var d := Delivery(Some(log[upto].cursor), log[upto].data);
    PersistedOne(ds, d);
    InPlaceOneMore(ds, d, before);
    assert (ds + [d])[|ds|] == d;
    assert InPlace(ds + [d], |ds|, before);
  }

  lemma {:induction false} StoredInLongerLog(log: seq<Entry>, longer: seq<Entry>, resumed: bool, from: nat, upto: nat)
    requires log <= longer && from <= upto <= |log|
    ensures Stored(longer, resumed, from, upto) == Stored(log, resumed, from, upto)
    decreases upto
  {
    if from < upto {
      StoredInLongerLog(log, longer, resumed, from, upto - 1);
    }
  }

  lemma FollowingInLongerLog(log: seq<Entry>, longer: seq<Entry>, resumed: bool, from: nat, upto: nat,
      ds: seq<Delivery>, before: nat, lastSeq: nat)
    requires log <= longer && Following(log, resumed, from, upto, ds, before, lastSeq)
    ensures Following(longer, resumed, from, upto, ds, before, lastSeq)
  {
    StoredInLongerLog(log, longer, resumed, from, upto);
  }

  /** An entry a resumed delivery leaves out. */
  lemma OneMoreSkipped(log: seq<Entry>, resumed: bool, from: nat, upto: nat, ds: seq<Delivery>, before: nat,
      lastSeq: nat)
    requires Following(log, resumed, from, upto, ds, before, lastSeq)
    requires upto < |log| && Skips(resumed, log[upto])
    ensures Following(log, resumed, from, upto + 1, ds, before, lastSeq)
  {
  }

  /** A stored end has just been delivered, and it is the first one past from. */
  ghost predicate Ended(log: seq<Entry>, resumed: bool, from: nat, upto: nat, ds: seq<Delivery>, before: nat) {
    && Deliveries(log, resumed, from, upto, ds, before)
    && from < upto && ds != []
    && IsOp(log[upto - 1].data, End) && NoEndEntries(log, from, upto - 1)
    && ds[|ds| - 1] == Delivery(Some(log[upto - 1].cursor), log[upto - 1].data)
  }

  /** How many of these deliveries are pings of the replayer's own. */
  function Pings(ds: seq<Delivery>): nat
    decreases |ds|
  {
    if ds == [] then 0
    else
      var last := ds[|ds| - 1];
      Pings(ds[..|ds| - 1]) + if last.cursor.None? && IsOp(last.data, Ping) then 1 else 0
  }

  lemma PingsPush(ds: seq<Delivery>, d: Delivery)
    ensures Pings(ds + [d]) == Pings(ds) + if d.cursor.None? && IsOp(d.data, Ping) then 1 else 0
  {
    assert (ds + [d])[..|ds|] == ds;
  }

  /** In how many of these rounds a ping is due. */
  function Due(turns: seq<Turn>): nat
    decreases |turns|
  {
    if turns == [] then 0 else Due(turns[..|turns| - 1]) + if turns[|turns| - 1].pingDue then 1 else 0
  }

  /** Hands one stored entry to the client, unless a resumed delivery leaves it out. */
  method DeliverOne(client: Client, entry: Entry, resumed: bool, lastSeq0: nat,
                    ghost log: seq<Entry>, ghost from: nat, ghost upto: nat, ghost mark: nat, ghost before: nat)
    returns (stop: Option<StreamEnd>, lastSeq: nat)
    requires upto < |log| && entry == log[upto] && mark <= |client.received|
    requires Following(log, resumed, from, upto, client.received[mark..], before, lastSeq0)
    modifies client
    ensures old(client.received) <= client.received && |client.received| <= |old(client.received)| + 1
    ensures Pings(client.received) == Pings(old(client.received))
    ensures stop.None? ==> Following(log, resumed, from, upto + 1, client.received[mark..], before, lastSeq)
    ensures stop.Some? ==> stop.value in {Finished, Disconnected, Undecodable}
    ensures stop.Some? && stop.value != Finished ==> client.received == old(client.received) && lastSeq == lastSeq0
    ensures stop == Some(Disconnected) ==> |client.received| >= client.capacity
    ensures stop == Some(Undecodable) ==> entry.data.Garbage?
    ensures stop == Some(Finished) ==> Ended(log, resumed, from, upto + 1, client.received[mark..], before)
  {
    lastSeq, stop := lastSeq0, None;
    if entry.data.Garbage? {
      return Some(Undecodable), lastSeq;
    }
    if resumed && entry.data.event.op.Start? {
      OneMoreSkipped(log, resumed, from, upto, client.received[mark..], before, lastSeq);
      return;
    }
    ghost var ds := client.received[mark..];
    var d := Delivery(Some(entry.cursor), entry.data);
    OneMoreStored(log, resumed, from, upto, ds, before, lastSeq);
    PingsPush(client.received, d);
    var ok := client.Deliver(d);
    if !ok {
      return Some(Disconnected), lastSeq;
    }
    assert client.received[mark..] == ds + [d];
    lastSeq := entry.data.event.seqNo;
    if entry.data.event.op.End? {
      stop := Some(Finished);
    }
  }

  /** Hands a batch of stored entries to the client, one by one. */
  method DeliverBatch(client: Client, entries: seq<Entry>, resumed: bool, cursor0: Option<StreamId>, lastSeq0: nat,
                      ghost log: seq<Entry>, ghost from: nat, ghost upto0: nat, ghost mark: nat, ghost before: nat)
    returns (stop: Option<StreamEnd>, cursor: Option<StreamId>, lastSeq: nat, ghost upto: nat)
    requires upto0 + |entries| <= |log| && entries == log[upto0..upto0 + |entries|]
    requires mark <= |client.received|
    requires Following(log, resumed, from, upto0, client.received[mark..], before, lastSeq0)
    requires StandsAt(log, cursor0, upto0)
    modifies client
    ensures old(client.received) <= client.received
    ensures Pings(client.received) == Pings(old(client.received))
    ensures upto0 <= upto <= upto0 + |entries|
    ensures |client.received| <= |old(client.received)| + (upto - upto0)
    ensures stop.None? ==> upto == upto0 + |entries| && StandsAt(log, cursor, upto)
    ensures stop != Some(Finished) ==> Following(log, resumed, from, upto, client.received[mark..], before, lastSeq)
    ensures stop.Some? ==> stop.value in {Finished, Disconnected, Undecodable}
    ensures stop == Some(Disconnected) ==> |client.received| >= client.capacity
    ensures stop == Some(Undecodable) ==> upto < |log| && log[upto].data.Garbage?
    ensures stop == Some(Finished) ==> Ended(log, resumed, from, upto, client.received[mark..], before)
  {
    hide Following, Ended, Pings;
    cursor, lastSeq, upto, stop := cursor0, lastSeq0, upto0, None;
    for i := 0 to |entries|
      invariant upto == upto0 + i && stop.None?
      invariant old(client.received) <= client.received
      invariant Pings(client.received) == Pings(old(client.received))
      invariant |client.received| <= |old(client.received)| + i
      invariant Following(log, resumed, from, upto, client.received[mark..], before, lastSeq)
      invariant StandsAt(log, cursor, upto)
    {
      assert entries[i] == log[upto];
      stop, lastSeq := DeliverOne(client, entries[i], resumed, lastSeq, log, from, upto, mark, before);
      if stop == Some(Finished) {
        upto := upto + 1;
      }
      if stop.Some? {
        return;
      }
      cursor := Some(entries[i].cursor);
      upto := upto + 1;
    }
  }

  /**
   * A terminal task with a decodable rest, a patient client and a round per remaining entry: nothing can stop the
   * replay short of its end.
   */
  ghost predicate CanFinish(s: Store, from: nat, received: nat, capacity: nat, rounds: nat) {
    && IsTerminal(s)
    && from <= |s.log|
    && (forall k :: from <= k < |s.log| ==> s.log[k].data.Wire?)
    && rounds >= 1 && rounds >= |s.log| - from
    && received + (|s.log| - from) + rounds < capacity
  }

  /** Where the loop stands between rounds. */
  ghost predicate Round(bridge: Bridge, client: Client, resumed: bool, cursor: Option<StreamId>, lastSeq: nat,
                        from: nat, upto: nat, mark: nat, before: nat)
    reads bridge, client
  {
    && LogInv(bridge.View()) && bridge.hash.Some? && bridge.readCount > 0
    && mark <= |client.received|
    && Following(bridge.log, resumed, from, upto, client.received[mark..], before, lastSeq)
    && StandsAt(bridge.log, cursor, upto)
  }

  /** Hands the client a delivery the log does not hold. */
  method DeliverSynthetic(client: Client, e: Event, resumed: bool, lastSeq: nat,
                          ghost log: seq<Entry>, ghost from: nat, ghost upto: nat, ghost mark: nat, ghost before: nat)
    returns (ok: bool)
    requires mark <= |client.received|
    requires Following(log, resumed, from, upto, client.received[mark..], before, lastSeq)
    requires e == PingEvent(lastSeq) || (e.op.End? && ValidEvent(e))
    modifies client
    ensures ok <==> |old(client.received)| < client.capacity
    ensures client.received == if ok then old(client.received) + [Delivery(None, Wire(e))] else old(client.received)
    ensures Deliveries(log, resumed, from, upto, client.received[mark..], before)
    ensures !ok || e.op.Ping? ==> Following(log, resumed, from, upto, client.received[mark..], before, lastSeq)
  {
    ghost var ds := client.received[mark..];
    var d := Delivery(None, Wire(e));
    OneMoreSynthetic(log, resumed, from, upto, ds, before, lastSeq, e);
    ok := client.Deliver(d);
    if ok {
      assert client.received[mark..] == ds + [d];
    }
  }

  /** Producers make their calls; the loop stands where it stood, on a log that may be longer. */
  method Interleave(bridge: Bridge, client: Client, steps: seq<Step>, resumed: bool, cursor: Option<StreamId>,
      lastSeq: nat,
                    ghost from: nat, ghost upto: nat, ghost mark: nat, ghost before: nat)
    requires Round(bridge, client, resumed, cursor, lastSeq, from, upto, mark, before)
    modifies bridge
    ensures Round(bridge, client, resumed, cursor, lastSeq, from, upto, mark, before)
    ensures old(bridge.log) <= bridge.log
    ensures old(IsTerminal(bridge.View())) ==> bridge.View() == old(bridge.View())
  {
    ghost var log := bridge.log;
    ProducersKeep(bridge.View(), steps);
    bridge.Produce(steps);
    FollowingInLongerLog(log, bridge.log, resumed, from, upto, client.received[mark..], before, lastSeq);
  }

  /** What the loop leaves behind, on values. */
  ghost predicate LoopOutcome(s: Store, resumed: bool, from: nat, upto: nat, ds: seq<Delivery>, before: nat,
      end: StreamEnd) {
    && Deliveries(s.log, resumed, from, upto, ds, before)
    && end in {Finished, Disconnected, OutOfTurns, Undecodable}
    && (end != Finished ==> NoEnds(ds))
    && (end == Undecodable ==> upto < |s.log| && s.log[upto].data.Garbage?)
    && (end == Finished ==> ds != [] && Closes(s, from, upto, ds[|ds| - 1]))
  }

  lemma BatchOutcome(s: Store, resumed: bool, from: nat, upto: nat, ds: seq<Delivery>, before: nat, lastSeq: nat,
      stop: StreamEnd)
    requires stop in {Finished, Disconnected, Undecodable}
    requires stop != Finished ==> Following(s.log, resumed, from, upto, ds, before, lastSeq)
    requires stop == Undecodable ==> upto < |s.log| && s.log[upto].data.Garbage?
    requires stop == Finished ==> Ended(s.log, resumed, from, upto, ds, before)
    ensures LoopOutcome(s, resumed, from, upto, ds, before, stop)
  {
  }

  lemma StillFollowing(s: Store, resumed: bool, from: nat, upto: nat, ds: seq<Delivery>, before: nat, lastSeq: nat)
    requires Following(s.log, resumed, from, upto, ds, before, lastSeq)
    ensures LoopOutcome(s, resumed, from, upto, ds, before, OutOfTurns)
  {
  }

  /** The first half of a round: producers, then a batch. */
  method ReadBatch(bridge: Bridge, client: Client, steps: seq<Step>, resumed: bool, cursor0: Option<StreamId>,
      lastSeq0: nat,
                   ghost from: nat, ghost upto0: nat, ghost mark: nat, ghost before: nat)
    returns (stop: Option<StreamEnd>, cursor: Option<StreamId>, lastSeq: nat, ghost upto: nat)
    requires Round(bridge, client, resumed, cursor0, lastSeq0, from, upto0, mark, before)
    modifies bridge, client
    ensures LogInv(bridge.View()) && bridge.hash.Some? && old(bridge.log) <= bridge.log
    ensures old(client.received) <= client.received && Pings(client.received) == Pings(old(client.received))
    ensures upto0 <= upto <= |bridge.log| && |client.received| <= |old(client.received)| + (upto - upto0)
    ensures stop.None? ==> Round(bridge, client, resumed, cursor, lastSeq, from, upto, mark, before)
    ensures stop.Some? ==> LoopOutcome(bridge.View(), resumed, from, upto, client.received[mark..], before, stop.value)
    ensures stop.Some? ==> stop.value in {Finished, Disconnected, Undecodable}
    ensures stop == Some(Disconnected) ==> |client.received| >= client.capacity
    ensures stop == Some(Undecodable) ==> upto < |bridge.log| && bridge.log[upto].data.Garbage?
    ensures stop.None? && upto0 < |bridge.log| ==> upto0 < upto
    ensures old(IsTerminal(bridge.View())) ==> bridge.View() == old(bridge.View())
  {
    hide Pings, Following, StandsAt, LoopOutcome, Ended, Increasing, Describes;
    Interleave(bridge, client, steps, resumed, cursor0, lastSeq0, from, upto0, mark, before);
    StandsWithin(bridge.log, cursor0, upto0);
    ReadsTheRest(bridge.log, cursor0, upto0);
    var events := bridge.Read(cursor0);
    stop, cursor, lastSeq, upto :=
      DeliverBatch(client, events, resumed, cursor0, lastSeq0, bridge.log, from, upto0, mark, before);
    if stop.Some? {
      BatchOutcome(bridge.View(), resumed, from, upto, client.received[mark..], before, lastSeq, stop.value);
    }
  }

  /** A terminal task of which nothing is left to read: the state the stream must not leave without an end. */
  predicate ConsumedTerminal(s: Store, upto: nat) {
    IsTerminal(s) && upto == |s.log|
  }

  /** Once a task's whole log is consumed, the read cursor is the one the hash notes. */
  lemma StandsAtTheEnd(s: Store, cursor: Option<StreamId>, upto: nat)
    requires LogInv(s) && s.hash.Some? && StandsAt(s.log, cursor, upto) && upto == |s.log|
    ensures cursor == Some(s.hash.value.lastCursor)
  {
  }

  /** The second half of a round: producers, then the end of a consumed terminal task, or a ping if due. */
  method CheckState(bridge: Bridge, client: Client, steps: seq<Step>, pingDue: bool, resumed: bool,
      cursor: Option<StreamId>, lastSeq: nat,
                    ghost from: nat, ghost upto: nat, ghost mark: nat, ghost before: nat)
    returns (stop: Option<StreamEnd>)
    requires Round(bridge, client, resumed, cursor, lastSeq, from, upto, mark, before)
    modifies bridge, client
    ensures LogInv(bridge.View()) && bridge.hash.Some? && old(bridge.log) <= bridge.log
    ensures old(client.received) <= client.received && |client.received| <= |old(client.received)| + 1
    ensures stop.Some? ==> LoopOutcome(bridge.View(), resumed, from, upto, client.received[mark..], before, stop.value)
    ensures stop.Some? ==> stop.value in {Finished, Disconnected}
    ensures stop.None? ==>
      client.received == old(client.received) + if pingDue then [Delivery(None, Wire(PingEvent(lastSeq)))] else []
    ensures stop.None? ==> Round(bridge, client, resumed, cursor, lastSeq, from, upto, mark, before)
    ensures stop == Some(Disconnected) ==> |client.received| >= client.capacity
    ensures stop.None? ==> !ConsumedTerminal(bridge.View(), upto)
    ensures old(IsTerminal(bridge.View())) ==> bridge.View() == old(bridge.View())
  {
    Interleave(bridge, client, steps, resumed, cursor, lastSeq, from, upto, mark, before);
    stop := None;
    var state := bridge.State();
    if upto == |bridge.log| {
      StandsAtTheEnd(bridge.View(), cursor, upto);
    }
    if Terminal(state.value.status) && cursor == Some(state.value.lastCursor) {
      ConsumedAll(bridge.log, cursor, upto);
      var ok := DeliverSynthetic(client, EndEvent(state.value.lastSeq), resumed, lastSeq, bridge.log, from, upto,
        mark, before);
      return Some(if ok then Finished else Disconnected);
    }
    if pingDue {
      var ok := DeliverSynthetic(client, PingEvent(lastSeq), resumed, lastSeq, bridge.log, from, upto, mark, before);
      if !ok {
        return Some(Disconnected);
      }
    }
  }

  /** One round of the loop: read and deliver a batch, check for the end of the task, ping if due. */
  method TakeTurn(bridge: Bridge, client: Client, turn: Turn, resumed: bool, cursor0: Option<StreamId>, lastSeq0: nat,
                  ghost from: nat, ghost upto0: nat, ghost mark: nat, ghost before: nat)
    returns (stop: Option<StreamEnd>, cursor: Option<StreamId>, lastSeq: nat, ghost upto: nat)
    requires Round(bridge, client, resumed, cursor0, lastSeq0, from, upto0, mark, before)
    modifies bridge, client
    ensures LogInv(bridge.View()) && bridge.hash.Some? && old(bridge.log) <= bridge.log
    ensures old(client.received) <= client.received
    ensures upto0 <= upto && |client.received| <= |old(client.received)| + (upto - upto0) + 1
    ensures stop.None? ==> Round(bridge, client, resumed, cursor, lastSeq, from, upto, mark, before)
    ensures stop.Some? ==> LoopOutcome(bridge.View(), resumed, from, upto, client.received[mark..], before, stop.value)
    ensures stop.Some? ==> stop.value in {Finished, Disconnected, Undecodable}
    ensures stop == Some(Disconnected) ==> |client.received| >= client.capacity
    ensures stop == Some(Undecodable) ==> upto < |bridge.log| && bridge.log[upto].data.Garbage?
    ensures upto <= |bridge.log|
    ensures stop.None? && upto0 < |old(bridge.log)| ==> upto0 < upto
    ensures stop.None? ==> Pings(client.received) == Pings(old(client.received)) + if turn.pingDue then 1 else 0
    ensures stop.None? ==> !ConsumedTerminal(bridge.View(), upto)
    ensures old(IsTerminal(bridge.View())) ==>
      && bridge.View() == old(bridge.View())
      && (stop.None? ==> upto0 < upto < |bridge.log|)
  {
    hide Round, LoopOutcome, Pings, Increasing, Describes;
    stop, cursor, lastSeq, upto := ReadBatch(bridge, client, turn.beforeRead, resumed, cursor0, lastSeq0, from,
      upto0, mark, before);
    if stop.None? {
      ghost var ds := client.received;
      PingsPush(ds, Delivery(None, Wire(PingEvent(lastSeq))));
      assert ds + [] == ds;
      stop := CheckState(bridge, client, turn.beforeState, turn.pingDue, resumed, cursor, lastSeq, from, upto, mark,
        before);
    }
  }

  /** The delivery loop. */
  method Follow(bridge: Bridge, client: Client, resumed: bool, cursor0: Option<StreamId>, lastSeq0: nat,
      turns: seq<Turn>,
                ghost from: nat, ghost mark: nat, ghost before: nat)
    returns (end: StreamEnd, ghost upto: nat)
    requires Round(bridge, client, resumed, cursor0, lastSeq0, from, from, mark, before)
    modifies bridge, client
    ensures LogInv(bridge.View()) && bridge.hash.Some? && old(bridge.log) <= bridge.log
    ensures old(client.received) <= client.received
    ensures LoopOutcome(bridge.View(), resumed, from, upto, client.received[mark..], before, end)
    ensures end == Disconnected ==> |client.received| >= client.capacity
    ensures end == OutOfTurns ==> from + |turns| <= upto || |old(bridge.log)| <= upto
    ensures end == OutOfTurns && turns != [] ==> !ConsumedTerminal(bridge.View(), upto)
    ensures end == OutOfTurns ==> Pings(client.received) == Pings(old(client.received)) + Due(turns)
    ensures old(IsTerminal(bridge.View())) ==> bridge.View() == old(bridge.View())
    ensures old(CanFinish(bridge.View(), from, |client.received|, client.capacity, |turns|)) ==> end == Finished
  {
    hide LoopOutcome, Pings, Increasing, Describes, LogInv, Following, StandsAt;
    var cursor, lastSeq := cursor0, lastSeq0;
    upto := from;
    ghost var quick := IsTerminal(bridge.View());
    for t := 0 to |turns|
      invariant Round(bridge, client, resumed, cursor, lastSeq, from, upto, mark, before)
      invariant from <= upto
      invariant old(bridge.log) <= bridge.log && old(client.received) <= client.received
      invariant quick ==> bridge.View() == old(bridge.View()) && from + t <= upto && (t == 0 || upto < |bridge.log|)
      invariant |client.received| <= |old(client.received)| + (upto - from) + t
      invariant from + t <= upto || |old(bridge.log)| <= upto
      invariant t > 0 ==> !ConsumedTerminal(bridge.View(), upto)
      invariant Pings(client.received) == Pings(old(client.received)) + Due(turns[..t])
    {
      assert turns[..t + 1][..t] == turns[..t];
      var stop: Option<StreamEnd>;
      stop, cursor, lastSeq, upto := TakeTurn(bridge, client, turns[t], resumed, cursor, lastSeq, from, upto, mark,
        before);
      if stop.Some? {
        return stop.value, upto;
      }
    }
    assert turns[..|turns|] == turns;
    StillFollowing(bridge.View(), resumed, from, upto, client.received[mark..], before, lastSeq);
    return OutOfTurns, upto;
  }

  lemma ConsumedAll(log: seq<Entry>, cursor: Option<StreamId>, upto: nat)
    requires Increasing(log) && log != [] && StandsAt(log, cursor, upto) && cursor == Some(log[|log| - 1].cursor)
    ensures upto == |log|
  {
  }

  lemma ProducersKeep(s: Store, steps: seq<Step>)
    requires LogInv(s) && s.hash.Some?
    ensures LogInv(Run(s, steps)) && Run(s, steps).hash.Some? && s.log <= Run(s, steps).log
    ensures IsTerminal(s) ==> Run(s, steps) == s
  {
    RunKeepsLogInv(s, steps);
    if IsTerminal(s) {
      TerminalIsFrozen(s, steps);
    }
  }

  /**
   * A fold fails at the first entry that does not decode or is not applied to what the entries before it made, and in
   * that way.
   */
  lemma {:induction false} FailureHasItsEntry(entries: seq<Entry>) returns (k: nat)
    requires !Rebuild(entries).Rebuilt?
    ensures k < |entries| && Rebuild(entries[..k]).Rebuilt?
    ensures entries[k].data.Garbage? <==> Rebuild(entries).Undecoded?
    ensures entries[k].data.Wire? ==> !R.Apply(Rebuild(entries[..k]).snapshot, entries[k].data.event).ok
    decreases |entries|
  {
    hide R.Apply;
    var last := |entries| - 1;
    if Rebuild(entries[..last]).Rebuilt? {
      k := last;
    } else {
      k := FailureHasItsEntry(entries[..last]);
      assert entries[..last][..k] == entries[..k];
    }
  }

  /** A fold that fails on a prefix fails the same way on the whole. */
  lemma {:induction false} RebuildFailsEarly(entries: seq<Entry>, k: nat)
    requires k <= |entries| && !Rebuild(entries[..k]).Rebuilt?
    ensures Rebuild(entries) == Rebuild(entries[..k])
    decreases |entries|
  {
    if k == |entries| {
      assert entries[..k] == entries;
    } else {
      var init := entries[..|entries| - 1];
      assert init[..k] == entries[..k];
      RebuildFailsEarly(init, k);
    }
  }

  lemma NothingRebuilt()
    ensures Rebuild([]) == Rebuilt(map[], 0)
  {
  }

  lemma RebuildOneMore(stored: seq<Entry>, i: nat)
    requires i < |stored| && Rebuild(stored[..i]).Rebuilt?
    ensures
      var init, data := Rebuild(stored[..i]), stored[i].data;
      Rebuild(stored[..i + 1]) ==
        if data.Garbage? then Undecoded
        else if !R.Apply(init.snapshot, data.event).ok then Unapplied
        else
          Rebuilt(
            R.Apply(init.snapshot, data.event).state,
            if data.event.op.Ping? then init.lastSeq else data.event.seqNo)
  {
    hide R.Apply;
    assert stored[..i + 1][..i] == stored[..i];
  }

  /** Folds stored events into one model, through one snapshot object. */
  method FoldStored(stored: seq<Entry>) returns (r: Rebuilt)
    ensures r == Rebuild(stored)
  {
    hide Rebuild;
    NothingRebuilt();
    var snapshot := new SnapshotState.Snapshot(map[]);
    var lastSeq := 0;
    assert stored[..0] == [];
    for i := 0 to |stored|
      invariant fresh(snapshot)
      invariant Rebuild(stored[..i]) == Rebuilt(snapshot.fields, lastSeq)
    {
      RebuildOneMore(stored, i);
      if stored[i].data.Garbage? {
        RebuildFailsEarly(stored, i + 1);
        return Undecoded;
      }
      var e := stored[i].data.event;
      var ok: bool;
      snapshot, ok := SnapshotState.Snapshot.Apply(snapshot, e);
      if !ok {
        RebuildFailsEarly(stored, i + 1);
        return Unapplied;
      }
      if !e.op.Ping? {
        lastSeq := e.seqNo;
      }
    }
    assert stored[..|stored|] == stored;
    r := Rebuilt(snapshot.fields, lastSeq);
  }

  /**
   * Reads the stored events up to a cursor and folds them into one model: those of the entries through the cursor's
   * own.
   */
  method SnapshotThrough(bridge: Bridge, cursor: StreamId) returns (found: bool, r: Rebuilt, ghost i: nat)
    requires Increasing(bridge.log)
    ensures found <==> HasCursor(bridge.log, cursor)
    ensures found ==> i < |bridge.log| && bridge.log[i].cursor == cursor && r == Rebuild(bridge.log[..i + 1])
  {
    var stored := bridge.EventsThrough(Some(cursor));
    i := 0;
    if |stored| == 0 || stored[|stored| - 1].cursor != cursor {
      forall k | 0 <= k < |bridge.log| ensures bridge.log[k].cursor != cursor {
        assert k < |stored| - 1 ==> Before(bridge.log[k].cursor, bridge.log[|stored| - 1].cursor);
      }
      return false, Unapplied, 0;
    }
    found := true;
    i := |stored| - 1;
    assert stored == bridge.log[..i + 1] && bridge.log[i] == stored[i];
    r := FoldStored(stored);
  }

  lemma OnlyOneEntry(log: seq<Entry>, cursor: StreamId, i: nat, k: nat)
    requires Increasing(log) && i < |log| && k < |log| && log[i].cursor == cursor == log[k].cursor
    ensures i == k
  {
  }

  /** The rebuilt start for a cursor, or the error that stands in its way. */
  method RebuildStart(bridge: Bridge, cursor: StreamId) returns (r: Option<Event>, error: StreamEnd, ghost i: nat)
    requires LogInv(bridge.View()) && cursor != ORIGIN
    ensures r.Some? ==>
      && ReopensAt(bridge.log, cursor, i) && ValidEvent(r.value) && r.value.op.Start?
      && Delivery(None, Wire(r.value)) == RebuiltStart(bridge.log[..i + 1])
    ensures r.None? ==>
      && (forall k: nat :: !ReopensAt(bridge.log, cursor, k))
      && StopsProperly(bridge.View(), Some(cursor), 0, 0, [], error)
    ensures error in {CursorNotFound, Undecodable, Unappliable, Unstartable}
  {
    var found, rebuilt;
    found, rebuilt, i := SnapshotThrough(bridge, cursor);
    if !found {
      return None, CursorNotFound, i;
    }
    forall k: nat | ReopensAt(bridge.log, cursor, k) ensures k == i {
      OnlyOneEntry(bridge.log, cursor, i, k);
    }
    if rebuilt.Undecoded? {
      return None, Undecodable, i;
    }
    if rebuilt.Unapplied? {
      return None, Unappliable, i;
    }
    var start := StartEvent(rebuilt.snapshot, rebuilt.lastSeq);
    if !ValidEvent(start) {
      return None, Unstartable, i;
    }
    return Some(start), Unstartable, i;
  }

  lemma FreshOutcome(s: Store, after: Option<StreamId>, upto: nat, ds: seq<Delivery>, end: StreamEnd)
    requires !Resuming(after) && LoopOutcome(s, false, 0, upto, ds, 0, end)
    ensures Transcript(s.log, after, 0, upto, ds) && StopsProperly(s, after, 0, upto, ds, end)
  {
  }

  lemma ResumedOutcome(s: Store, after: Option<StreamId>, i: nat, upto: nat, rest: seq<Delivery>, end: StreamEnd)
    requires Resuming(after) && ReopensAt(s.log, after.value, i)
    requires LoopOutcome(s, true, i + 1, upto, rest, Rebuild(s.log[..i + 1]).lastSeq, end)
    ensures Transcript(s.log, after, i + 1, upto, [RebuiltStart(s.log[..i + 1])] + rest)
    ensures StopsProperly(s, after, i + 1, upto, [RebuiltStart(s.log[..i + 1])] + rest, end)
  {
    var ds := [RebuiltStart(s.log[..i + 1])] + rest;
    assert ds[1..] == rest;
    forall k | 0 <= k < |ds| && end != Finished ensures !IsOp(ds[k].data, End) {
      assert k > 0 ==> ds[k] == rest[k - 1];
    }
  }

  /** The loop, from a place in the log where nothing has been delivered yet. */
  method FollowFrom(bridge: Bridge, client: Client, resumed: bool, cursor: Option<StreamId>, lastSeq: nat,
      turns: seq<Turn>, ghost from: nat)
    returns (end: StreamEnd, ghost upto: nat)
    requires LogInv(bridge.View()) && bridge.hash.Some? && bridge.readCount > 0
    requires StandsAt(bridge.log, cursor, from)
    modifies bridge, client
    ensures LogInv(bridge.View()) && old(bridge.log) <= bridge.log
    ensures old(client.received) <= client.received
    ensures LoopOutcome(bridge.View(), resumed, from, upto, client.received[|old(client.received)|..], lastSeq, end)
    ensures end == Disconnected ==> |client.received| >= client.capacity
    ensures end == OutOfTurns ==> from + |turns| <= upto || |old(bridge.log)| <= upto
    ensures end == OutOfTurns && turns != [] ==> !ConsumedTerminal(bridge.View(), upto)
    ensures end == OutOfTurns ==> Pings(client.received) == Pings(old(client.received)) + Due(turns)
    ensures old(IsTerminal(bridge.View())) ==> bridge.View() == old(bridge.View())
    ensures old(CanFinish(bridge.View(), from, |client.received|, client.capacity, |turns|)) ==> end == Finished
  {
    ghost var mark := |client.received|;
    assert client.received[mark..] == [];
    assert Following(bridge.log, resumed, from, from, [], lastSeq, lastSeq);
    end, upto := Follow(bridge, client, resumed, cursor, lastSeq, turns, from, mark, lastSeq);
  }

  /** A finite run on which nothing can keep the stream from its end. */
  ghost predicate WillFinish(s: Store, after: Option<StreamId>, received: nat, capacity: nat, rounds: nat) {
    if Resuming(after) then
      exists i: nat :: ReopensAt(s.log, after.value, i) && CanFinish(s, i + 1, received + 1, capacity, rounds)
    else CanFinish(s, 0, received, capacity, rounds)
  }

  lemma NothingDelivered(s: Store, after: Option<StreamId>)
    requires Resuming(after)
    ensures Transcript(s.log, after, 0, 0, []) && StopsProperly(s, after, 0, 0, [], Disconnected)
  {
  }

  lemma NeverReopens(s: Store, after: Option<StreamId>, received: nat, capacity: nat, rounds: nat)
    requires Resuming(after) && forall k: nat :: !ReopensAt(s.log, after.value, k)
    ensures !WillFinish(s, after, received, capacity, rounds)
  {
    hide ReopensAt;
  }

  /** The one entry a cursor names decides whether a resumed stream finishes. */
  lemma WillFinishAt(s: Store, after: Option<StreamId>, i: nat, received: nat, capacity: nat, rounds: nat)
    requires Increasing(s.log) && Resuming(after) && ReopensAt(s.log, after.value, i)
    requires WillFinish(s, after, received, capacity, rounds)
    ensures CanFinish(s, i + 1, received + 1, capacity, rounds)
  {
    hide Startable;
    var k: nat :| ReopensAt(s.log, after.value, k) && CanFinish(s, k + 1, received + 1, capacity, rounds);
    OnlyOneEntry(s.log, after.value, i, k);
  }

  /** A connection resumed after a cursor: the rebuilt start, then the loop. */
  method StreamResumed(bridge: Bridge, client: Client, after: Option<StreamId>, turns: seq<Turn>)
    returns (end: StreamEnd, ghost from: nat, ghost upto: nat)
    requires LogInv(bridge.View()) && bridge.hash.Some? && bridge.readCount > 0 && Resuming(after)
    modifies bridge, client
    ensures LogInv(bridge.View()) && old(bridge.log) <= bridge.log
    ensures old(client.received) <= client.received
    ensures Transcript(bridge.log, after, from, upto, client.received[|old(client.received)|..])
    ensures StopsProperly(bridge.View(), after, from, upto, client.received[|old(client.received)|..], end)
    ensures end == Disconnected ==> |client.received| >= client.capacity
    ensures end == OutOfTurns ==> from + |turns| <= upto || |old(bridge.log)| <= upto
    ensures end == OutOfTurns && turns != [] ==> !ConsumedTerminal(bridge.View(), upto)
    ensures end == OutOfTurns ==> Pings(client.received) == Pings(old(client.received)) + Due(turns)
    ensures old(IsTerminal(bridge.View())) ==> bridge.View() == old(bridge.View())
    ensures old(WillFinish(bridge.View(), after, |client.received|, client.capacity, |turns|)) ==> end == Finished
    ensures end != TaskNotFound
  {
    hide Transcript, StopsProperly, Increasing, Describes, RebuiltStart, CanFinish, WillFinish, ReopensAt, Rebuild,
      ValidEvent;
    ghost var mark, s := |client.received|, bridge.View();
    var start, error;
    ghost var i;
    start, error, i := RebuildStart(bridge, after.value);
    NothingDelivered(s, after);
    if start.None? {
      assert client.received[mark..] == [];
      NeverReopens(s, after, |client.received|, client.capacity, |turns|);
      return error, 0, 0;
    }
    if WillFinish(s, after, |client.received|, client.capacity, |turns|) {
      WillFinishAt(s, after, i, |client.received|, client.capacity, |turns|);
      RoomToFinish(s, i + 1, |client.received| + 1, client.capacity, |turns|);
    }
    PingsPush(client.received, Delivery(None, Wire(start.value)));
    var ok := client.Deliver(Delivery(None, Wire(start.value)));
    if !ok {
      assert client.received[mark..] == [];
      return Disconnected, 0, 0;
    }
    end, upto := FollowRebuilt(bridge, client, after, start.value, turns, i);
    from := i + 1;
  }

  lemma RoomToFinish(s: Store, from: nat, received: nat, capacity: nat, rounds: nat)
    requires CanFinish(s, from, received, capacity, rounds)
    ensures received < capacity
  {
  }

  /** The loop of a connection whose rebuilt start has just been delivered. */
  method FollowRebuilt(bridge: Bridge, client: Client, after: Option<StreamId>, start: Event, turns: seq<Turn>,
      ghost i: nat)
    returns (end: StreamEnd, ghost upto: nat)
    requires LogInv(bridge.View()) && bridge.hash.Some? && bridge.readCount > 0
    requires Resuming(after) && ReopensAt(bridge.log, after.value, i)
    requires ValidEvent(start) && Delivery(None, Wire(start)) == RebuiltStart(bridge.log[..i + 1])
    requires client.received != [] && client.received[|client.received| - 1] == Delivery(None, Wire(start))
    modifies bridge, client
    ensures LogInv(bridge.View()) && old(bridge.log) <= bridge.log
    ensures old(client.received) <= client.received
    ensures Transcript(bridge.log, after, i + 1, upto, client.received[|old(client.received)| - 1..])
    ensures StopsProperly(bridge.View(), after, i + 1, upto, client.received[|old(client.received)| - 1..], end)
    ensures end == Disconnected ==> |client.received| >= client.capacity
    ensures end == OutOfTurns ==> i + 1 + |turns| <= upto || |old(bridge.log)| <= upto
    ensures end == OutOfTurns && turns != [] ==> !ConsumedTerminal(bridge.View(), upto)
    ensures end == OutOfTurns ==> Pings(client.received) == Pings(old(client.received)) + Due(turns)
    ensures old(IsTerminal(bridge.View())) ==> bridge.View() == old(bridge.View())
    ensures old(CanFinish(bridge.View(), i + 1, |client.received|, client.capacity, |turns|)) ==> end == Finished
    ensures end != TaskNotFound
  {
    hide Transcript, StopsProperly, Increasing, Describes, CanFinish, LoopOutcome, Startable, Rebuild, ValidEvent;
    ghost var mark, log := |client.received|, bridge.log;
    end, upto := FollowFrom(bridge, client, true, after, start.seqNo, turns, i + 1);
    assert client.received[mark - 1..] == [Delivery(None, Wire(start))] + client.received[mark..];
    assert bridge.log[..i + 1] == log[..i + 1];
    ResumedOutcome(bridge.View(), after, i, upto, client.received[mark..], end);
    LoopEnds(bridge.View(), true, i + 1, upto, client.received[mark..], start.seqNo, end);
  }

  lemma LoopEnds(s: Store, resumed: bool, from: nat, upto: nat, ds: seq<Delivery>, before: nat, end: StreamEnd)
    requires LoopOutcome(s, resumed, from, upto, ds, before, end)
    ensures end in {Finished, Disconnected, OutOfTurns, Undecodable}
  {
  }

  /**
   * One connection: from the beginning, or resumed after a cursor. opening is what producers do
   * while it is set up, and each turn what they do around one round of the loop.
   */
  method Stream(bridge: Bridge, client: Client, after: Option<StreamId>, opening: seq<Step>, turns: seq<Turn>)
    returns (end: StreamEnd, ghost from: nat, ghost upto: nat)
    requires LogInv(bridge.View()) && bridge.readCount > 0
    modifies bridge, client
    ensures LogInv(bridge.View()) && old(bridge.log) <= bridge.log
    ensures old(client.received) <= client.received
    ensures Transcript(bridge.log, after, from, upto, client.received[|old(client.received)|..])
    ensures StopsProperly(bridge.View(), after, from, upto, client.received[|old(client.received)|..], end)
    ensures end == Disconnected ==> |client.received| >= client.capacity
    ensures end == OutOfTurns ==> from + |turns| <= upto || |old(bridge.log)| <= upto
    ensures end == OutOfTurns && turns != [] ==> !ConsumedTerminal(bridge.View(), upto)
    ensures end == OutOfTurns ==> Pings(client.received) == Pings(old(client.received)) + Due(turns)
    ensures old(IsTerminal(bridge.View())) ==> bridge.View() == old(bridge.View())
    ensures old(WillFinish(bridge.View(), after, |client.received|, client.capacity, |turns|)) ==> end == Finished
    ensures end == TaskNotFound <==> old(bridge.hash).None?
  {
    ghost var mark := |client.received|;
    var state := bridge.State();
    if state.None? {
      assert client.received[mark..] == [];
      return TaskNotFound, 0, 0;
    }
    ProducersKeep(bridge.View(), opening);
    bridge.Produce(opening);
    if Resuming(after) {
      end, from, upto := StreamResumed(bridge, client, after, turns);
    } else {
      from := 0;
      end, upto := FollowFrom(bridge, client, false, after, 0, turns, 0);
      FreshOutcome(bridge.View(), after, upto, client.received[mark..], end);
    }
  }
}
