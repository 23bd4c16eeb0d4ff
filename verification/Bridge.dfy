/** The bridge object: one task's hash and stream, changed by atomic calls and read by replayers. */
module BridgeState {
  import opened Json
  import opened LuaNumbers
  import opened EventLog

  class Bridge {
    var hash: Option<Hash>
    var log: seq<Entry>
    const readCount: nat

    ghost function View(): Store
      reads this
    {
      Store(hash, log)
    }

    constructor (readCount: nat)
      ensures View() == EMPTY && this.readCount == (if readCount == 0 then 100 else readCount)
    {
      hash := None;
      log := [];
      this.readCount := if readCount == 0 then 100 else readCount;
    }

    method Add(event: Data, now: nat) returns (cursor: StreamId)
      modifies this`log
      ensures cursor == NextId(LastId(old(log)), now)
      ensures log == old(log) + [Entry(cursor, event)]
    {
      cursor := NextId(LastId(log), now);
      log := log + [Entry(cursor, event)];
    }

    method Initialize(model: Json, event: Data, seqNo: nat, now: nat) returns (reply: Reply)
      modifies this
      ensures (View(), reply) == InitializeScript(old(View()), model, event, seqNo, now)
    {
      if hash.Some? {
        return Conflict;
      }
      var cursor := Add(event, now);
      hash := Some(Hash(Running, seqNo, model, event, cursor));
      return Cursor(cursor);
    }

    method Publish(event: Data, seqNo: nat, now: nat) returns (reply: Reply)
      modifies this
      ensures (View(), reply) == PublishScript(old(View()), event, seqNo, now)
    {
      if hash.None? {
        return NotFound;
      }
      var h := hash.value;
      var last, number := Double(h.lastSeq), Double(seqNo);
      if number == last && h.lastEvent == event {
        return Cursor(h.lastCursor);
      }
      if h.status != Running {
        return Conflict;
      }
      if number <= last {
        return Conflict;
      }
      var cursor := Add(event, now);
      hash := Some(h.(lastSeq := seqNo, lastEvent := event, lastCursor := cursor));
      return Cursor(cursor);
    }

    method MarkTerminal(status: Status) returns (reply: Reply)
      modifies this
      ensures (View(), reply) == MarkTerminalScript(old(View()), status)
    {
      if !Terminal(status) {
        return Invalid;
      }
      if hash.None? {
        return NotFound;
      }
      var current := hash.value.status;
      if current != Running && current != status {
        return Conflict;
      }
      hash := Some(hash.value.(status := status));
      return Done;
    }

    /** Producers at work: any sequence of their calls. */
    method Produce(steps: seq<Step>)
      modifies this
      ensures View() == Run(old(View()), steps)
    {
      for i := 0 to |steps|
        invariant View() == Run(old(View()), steps[..i])
      {
        assert steps[..i + 1][..i] == steps[..i];
        var step := steps[i];
        var reply: Reply;
        match step.op {
          case Initialize(model, start) => reply := Initialize(model, start, SeqOf(start), step.now);
          case Publish(event) => reply := Publish(event, SeqOf(event), step.now);
          case MarkTerminal(status) => reply := MarkTerminal(status);
        }
      }
      assert steps[..|steps|] == steps;
    }

    method State() returns (r: Option<Hash>)
      ensures r == hash
    {
      return hash;
    }

    /**
     * The stored entries up to a cursor: all of them when it is absent, else exactly those whose cursor is not after
     * it.
     */
    method EventsThrough(end: Option<StreamId>) returns (r: seq<Entry>)
      ensures r <= log
      ensures Increasing(log) ==>
        forall k :: 0 <= k < |log| ==> (k < |r| <==> end.None? || !Before(end.value, log[k].cursor))
    {
      if end.None? {
        return log;
      }
      ThroughAndAfter(log, end.value);
      if Increasing(log) {
        ThroughExactly(log, end.value);
      }
      return EntriesThrough(log, end.value);
    }

    /** The next entries past a cursor: at most readCount, and at least one whenever one is there. */
    method Read(after: Option<StreamId>) returns (r: seq<Entry>)
      requires readCount > 0
      ensures
        var rest := EntriesAfter(log, after.GetOr(ORIGIN));
        r <= rest && |r| <= readCount && (rest != [] ==> r != [])
    {
      var rest := EntriesAfter(log, after.GetOr(ORIGIN));
      return if |rest| <= readCount then rest else rest[..readCount];
    }
  }
}
