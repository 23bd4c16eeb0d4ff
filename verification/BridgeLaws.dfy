/** What each script answers and leaves behind, and what the answers of a whole run say about its end. */
module BridgeLaws {
  import opened Json
  import opened LuaNumbers
  import opened EventLog

  /** The clock decides a new id unless it has not moved past the last one. */
  lemma NextIdMeans(last: StreamId, now: nat)
    ensures
      var id := NextId(last, now);
      && id.ms == (if last.ms < now then now else last.ms)
      && (last.ms < now ==> id.n == 0) && (now <= last.ms ==> id.n == last.n + 1)
      && forall other: StreamId :: Before(last, other) && other.ms >= now ==> !Before(other, id)
  {
  }

  /** A new entry at the end of the log, under the next id. */
  predicate Stored(s: Store, after: Store, event: Data, now: nat, id: StreamId) {
    after.log == s.log + [Entry(id, event)] && id == NextId(LastId(s.log), now)
  }

  /** A first initialization stores the start under a new cursor and sets every field; a later one does nothing. */
  lemma InitializeMeans(s: Store, model: Json, start: Data, now: nat)
    ensures
      var (after, reply) := Call(s, Step(Initialize(model, start), now));
      if s.hash.Some? then reply == Conflict && after == s
      else
        && reply.Cursor? && Stored(s, after, start, now, reply.id) && after.hash.Some?
        && var h := after.hash.value;
        && h.status == Running && h.initialModel == model
        && h.lastSeq == SeqOf(start) && h.lastEvent == start && h.lastCursor == reply.id
  {
  }

  predicate Repeats(h: Hash, event: Data) {
    h.lastEvent == event && Double(h.lastSeq) == Double(SeqOf(event))
  }

  /**
   * A publish stores its event and notes it, without touching status or model, exactly when the task runs and the
   * rounded number is greater; it answers the noted cursor to a repeat; and in every other case it refuses.
   */
  lemma PublishMeans(s: Store, event: Data, now: nat)
    ensures
      var (after, reply) := Call(s, Step(Publish(event), now));
      match s.hash
      case None => reply == NotFound && after == s
      case Some(h) =>
        var fresh_ := h.status == Running && Double(h.lastSeq) < Double(SeqOf(event));
        && (fresh_ ==>
          && reply.Cursor? && Stored(s, after, event, now, reply.id) && after.hash.Some?
          && var noted := after.hash.value;
          && noted.status == Running && noted.initialModel == h.initialModel
          && noted.lastSeq == SeqOf(event) && noted.lastEvent == event && noted.lastCursor == reply.id)
        && (!fresh_ ==> after == s && reply == if Repeats(h, event) then Cursor(h.lastCursor) else Conflict)
  {
  }

  /**
   * Marking stores the very status asked for and nothing else, exactly when the task runs or already has that status;
   * a status that is not terminal is invalid.
   */
  lemma MarkTerminalMeans(s: Store, status: Status, now: nat)
    ensures
      var (after, reply) := Call(s, Step(MarkTerminal(status), now));
      && (reply == Invalid <==> status == Running)
      && (reply == NotFound <==> status != Running && s.hash.None?)
      && (reply == Done <==> status != Running && s.hash.Some? && s.hash.value.status in {Running, status})
      && (reply == Conflict <==> status != Running && s.hash.Some? && s.hash.value.status !in {Running, status})
      && (reply != Done ==> after == s)
      && (reply == Done ==>
        && after.log == s.log && after.hash.Some? && after.hash.value.status == status
        && after.hash.value == s.hash.value.(status := after.hash.value.status))
  {
  }

  /** An answered cursor is the cursor of that very event in the log. */
  lemma CursorMeansStored(s: Store, step: Step)
    requires LogInv(s) && Call(s, step).1.Cursor?
    ensures
      var (after, reply) := Call(s, step);
      match step.op
      case Initialize(_, start) => Entry(reply.id, start) in after.log
      case Publish(event) => Entry(reply.id, event) in after.log
      case MarkTerminal(_) => false
  {
    var (after, reply) := Call(s, step);
    assert after.log[|after.log| - 1].cursor == reply.id;
  }

  /** This call marked the task, or found it so marked. */
  predicate Marks(s: Store, steps: seq<Step>, i: int)
    requires 0 <= i < |steps|
  {
    steps[i].op.MarkTerminal? && Call(Run(s, steps[..i]), steps[i]).1 == Done
  }

  /** The status of a task, absent before it is initialized. */
  function StatusAfter(s: Store, steps: seq<Step>): Option<Status> {
    match Run(s, steps).hash
    case None => None
    case Some(h) => Some(h.status)
  }

  predicate Ended(status: Option<Status>) {
    status.Some? && Terminal(status.value)
  }

  /** One call's part in the status. */
  lemma CallAt(s: Store, steps: seq<Step>, k: nat)
    requires k < |steps|
    ensures
      var before, after := StatusAfter(s, steps[..k]), StatusAfter(s, steps[..k + 1]);
      && (Ended(before) ==> after == before)
      && (Marks(s, steps, k) ==> after == Some(steps[k].op.status) && Ended(after))
      && (Ended(after) && !Marks(s, steps, k) ==> after == before)
  {
    assert steps[..k + 1][..k] == steps[..k];
  }

  lemma {:induction false} StatusUpTo(s: Store, steps: seq<Step>, k: nat)
    requires k <= |steps| && !Ended(StatusAfter(s, []))
    ensures Ended(StatusAfter(s, steps[..k])) <==> exists i :: 0 <= i < k && Marks(s, steps, i)
    ensures forall i :: 0 <= i < k && Marks(s, steps, i) ==> StatusAfter(s, steps[..k]) == Some(steps[i].op.status)
  {
    hide Marks, StatusAfter, Ended;
    if k == 0 {
      assert steps[..0] == [];
    } else {
      StatusUpTo(s, steps, k - 1);
      CallAt(s, steps, k - 1);
    }
  }

  /**
   * Over any run of a task that is not yet terminal: it ends terminal exactly when some call to mark it succeeded, and
   * then under the status of that call, which all such calls share.
   */
  lemma FinalStatus(s: Store, steps: seq<Step>)
    requires s.hash.Some? ==> s.hash.value.status == Running
    ensures Ended(StatusAfter(s, steps)) <==> exists i :: 0 <= i < |steps| && Marks(s, steps, i)
    ensures forall i :: 0 <= i < |steps| && Marks(s, steps, i) ==> StatusAfter(s, steps) == Some(steps[i].op.status)
  {
    assert Run(s, []) == s;
    StatusUpTo(s, steps, |steps|);
    assert steps[..|steps|] == steps;
  }
}
