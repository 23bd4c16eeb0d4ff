/** What a replayed delivery looks like (sdks/go/runner/replay.go). */
module Replay {
  import opened Json
  import opened Model
  import opened EventLog
  import R = Reducer

  /** One event handed to the transport. Rebuilt starts, pings and synthetic ends have no cursor. */
  datatype Delivery = Delivery(cursor: Option<StreamId>, data: Data)

  predicate IsOp(data: Data, op: Op) {
    data.Wire? && data.event.op == op
  }

  /** A cursor other than the beginning of the stream asks for a resume. */
  predicate Resuming(after: Option<StreamId>) {
    after.Some? && after.value != ORIGIN
  }

  datatype Rebuilt = Rebuilt(snapshot: Fields, lastSeq: nat) | Undecoded | Unapplied

  /** The fold of a stored prefix into one model and the number it covers. Pings do not count. */
  function Rebuild(entries: seq<Entry>): (r: Rebuilt)
    decreases |entries|
  {
    if entries == [] then Rebuilt(map[], 0)
    else
      var init := Rebuild(entries[..|entries| - 1]);
      if !init.Rebuilt? then init
      else match entries[|entries| - 1].data
        case Garbage(_, _) => Undecoded
        case Wire(e, _) =>
          var applied := R.Apply(init.snapshot, e);
          if !applied.ok then Unapplied
          else Rebuilt(applied.state, if e.op.Ping? then init.lastSeq else e.seqNo)
  }

  /** Rebuilding gives a model that a start event may carry. */
  predicate Startable(entries: seq<Entry>) {
    Rebuild(entries).Rebuilt? && ValidModel(Rebuild(entries).snapshot)
  }

  function RebuiltStart(entries: seq<Entry>): Delivery
    requires Startable(entries)
  {
    Delivery(None, Wire(StartEvent(Rebuild(entries).snapshot, Rebuild(entries).lastSeq)))
  }

  /** A resumed delivery leaves out later starts. */
  predicate Skips(resumed: bool, entry: Entry) {
    resumed && IsOp(entry.data, Start)
  }

  /** The stored entries from..till as they are delivered, in order, with their cursors. */
  function Stored(log: seq<Entry>, resumed: bool, from: nat, till: nat): (r: seq<Delivery>)
    requires from <= till <= |log|
    decreases till
  {
    if from == till then []
    else
      var init := Stored(log, resumed, from, till - 1);
      var entry := log[till - 1];
      if Skips(resumed, entry) then init else init + [Delivery(Some(entry.cursor), entry.data)]
  }

  function Persisted(ds: seq<Delivery>): (r: seq<Delivery>)
    decreases |ds|
  {
    if ds == [] then []
    else
      var init := Persisted(ds[..|ds| - 1]);
      if ds[|ds| - 1].cursor.Some? then init + [ds[|ds| - 1]] else init
  }

  function LastSeq(ds: seq<Delivery>, before: nat): nat {
    if ds == [] then before else SeqOf(ds[|ds| - 1].data)
  }

  /** A delivery is a stored entry, a ping repeating the number before it, or an end that closes the stream. */
  predicate InPlace(ds: seq<Delivery>, i: nat, before: nat)
    requires i < |ds|
  {
    && (ds[i].cursor.Some?
      || ds[i].data == Wire(PingEvent(LastSeq(ds[..i], before)))
      || (i == |ds| - 1 && IsOp(ds[i].data, End)))
    && ds[i].data.Wire?
    && (IsOp(ds[i].data, End) ==> i == |ds| - 1)
  }

  /** Entries from..till delivered exactly, with nothing in between but pings and nothing after an end. */
  predicate Deliveries(log: seq<Entry>, resumed: bool, from: nat, till: nat, ds: seq<Delivery>, before: nat) {
    && from <= till <= |log|
    && Persisted(ds) == Stored(log, resumed, from, till)
    && forall i :: 0 <= i < |ds| ==> InPlace(ds, i, before)
  }

  /**
   * Everything one connection can deliver when it was opened at a cursor that covers the first
   * from entries and has consumed the log up to upto.
   */
  predicate Transcript(log: seq<Entry>, after: Option<StreamId>, from: nat, upto: nat, ds: seq<Delivery>) {
    if !Resuming(after) then from == 0 && Deliveries(log, false, 0, upto, ds, 0)
    else ds != [] ==>
      && 1 <= from <= |log| && log[from - 1].cursor == after.value
      && Startable(log[..from]) && ds[0] == RebuiltStart(log[..from])
      && Deliveries(log, true, from, upto, ds[1..], Rebuild(log[..from]).lastSeq)
  }

  predicate NoEnds(ds: seq<Delivery>) {
    forall i :: 0 <= i < |ds| ==> !IsOp(ds[i].data, End)
  }

  predicate NoEndEntries(log: seq<Entry>, from: nat, upto: nat)
    requires upto <= |log|
  {
    forall k :: from <= k < upto ==> !IsOp(log[k].data, End)
  }

  predicate IsTerminal(s: Store) {
    s.hash.Some? && Terminal(s.hash.value.status)
  }

  /**
   * The delivery that closes a stream: the first stored end past from, or, when a terminal task's
   * whole log has been consumed without one, a synthetic end carrying the task's last number.
   */
  predicate Closes(s: Store, from: nat, upto: nat, last: Delivery) {
    && IsOp(last.data, End) && upto <= |s.log|
    && if last.cursor.Some? then
         && from < upto && last == Delivery(Some(s.log[upto - 1].cursor), s.log[upto - 1].data)
         && NoEndEntries(s.log, from, upto - 1)
       else
         && IsTerminal(s) && upto == |s.log|
         && last == Delivery(None, Wire(EndEvent(s.hash.value.lastSeq)))
         && NoEndEntries(s.log, from, upto)
  }

  /** How a call returns: normally, or with an error, or because one side stopped. */
  datatype StreamEnd = Finished | Disconnected | OutOfTurns | TaskNotFound | CursorNotFound | Undecodable
      | Unappliable | Unstartable

  predicate HasCursor(log: seq<Entry>, cursor: StreamId) {
    exists i :: 0 <= i < |log| && log[i].cursor == cursor
  }

  /** Entry i has this cursor, and what it covers can be rebuilt into a start. */
  predicate ReopensAt(log: seq<Entry>, cursor: StreamId, i: nat) {
    i < |log| && log[i].cursor == cursor && Startable(log[..i + 1])
  }

  /** What a cursor covers fails to rebuild in this way. */
  predicate FailsAt(log: seq<Entry>, cursor: StreamId, failure: Rebuilt) {
    exists i :: 0 <= i < |log| && log[i].cursor == cursor && Rebuild(log[..i + 1]) == failure
  }

  /** What a cursor covers rebuilds into a model that a start may not carry. */
  predicate InvalidAt(log: seq<Entry>, cursor: StreamId) {
    exists i :: 0 <= i < |log| && log[i].cursor == cursor && Rebuild(log[..i + 1]).Rebuilt? && !Startable(log[..i + 1])
  }

  /** What each return means. Only a normal one follows an end, and it always does. */
  ghost predicate StopsProperly(s: Store, after: Option<StreamId>, from: nat, upto: nat, ds: seq<Delivery>,
      end: StreamEnd) {
    && (end != Finished ==> NoEnds(ds))
    && match end
       case Finished => ds != [] && Closes(s, from, upto, ds[|ds| - 1])
       case TaskNotFound => ds == [] && s.hash.None?
       case CursorNotFound => ds == [] && Resuming(after) && !HasCursor(s.log, after.value)
       case Undecodable =>
         if Resuming(after) && ds == [] then FailsAt(s.log, after.value, Undecoded)
         else upto < |s.log| && s.log[upto].data.Garbage?
       case Unappliable => ds == [] && Resuming(after) && FailsAt(s.log, after.value, Unapplied)
       case Unstartable => ds == [] && Resuming(after) && InvalidAt(s.log, after.value)
       case Disconnected => true
       case OutOfTurns => true
  }
}
