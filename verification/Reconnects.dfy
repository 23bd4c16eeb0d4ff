/** A client that keeps reconnecting to a live task, end to end. */
module Reconnects {
  import opened Json
  import opened Model
  import opened EventLog
  import opened BridgeState
  import opened Replay
  import opened ReplayerState
  import opened ResumeLaws

  /** One attempt: how much the client takes before it goes away, and what producers do meanwhile. */
  datatype Attempt = Attempt(capacity: nat, opening: seq<Step>, turns: seq<Turn>)

  lemma TranscriptStays(log: seq<Entry>, longer: seq<Entry>, after: Option<StreamId>, from: nat, upto: nat,
      ds: seq<Delivery>)
    requires log <= longer && Transcript(log, after, from, upto, ds)
    ensures Transcript(longer, after, from, upto, ds)
  {
    if !Resuming(after) {
      StoredInLongerLog(log, longer, false, 0, upto);
    } else if ds != [] {
      assert longer[..from] == log[..from];
      StoredInLongerLog(log, longer, true, from, upto);
    }
  }

  lemma {:induction false} SessionStays(log: seq<Entry>, longer: seq<Entry>, conns: seq<Connection>)
    requires log <= longer && Session(log, conns)
    ensures Session(longer, conns)
    decreases |conns|
  {
    if conns != [] {
      var init, last := conns[..|conns| - 1], conns[|conns| - 1];
      SessionStays(log, longer, init);
      TranscriptStays(log, longer, last.after, last.from, last.upto, last.ds);
    }
  }

  lemma SessionGrows(log: seq<Entry>, longer: seq<Entry>, conns: seq<Connection>, next: Connection)
    requires log <= longer && Session(log, conns) && Reconnects(SessionView(conns), next.after)
    requires Transcript(longer, next.after, next.from, next.upto, next.ds)
    ensures Session(longer, conns) && Session(longer, conns + [next])
    ensures SessionView(conns + [next]) == Receive(SessionView(conns), next.ds)
  {
    SessionStays(log, longer, conns);
    assert (conns + [next])[..|conns|] == conns;
  }

  lemma NothingYet(log: seq<Entry>)
    ensures Session(log, []) && SessionView([]) == NOTHING
  {
  }

  lemma LastCursorReconnects(v: View)
    ensures Reconnects(v, v.cursor)
  {
  }

  /**
   * What an attempt got done that did not finish: it used every round, and each round but those after the log's end
   * brought it at least one entry further; or it delivered as much as the client would take. length is that of the log
   * when the client first connected.
   */
  predicate Worked(attempt: Attempt, conn: Connection, end: StreamEnd, length: nat) {
    && (end == OutOfTurns ==> conn.from + |attempt.turns| <= conn.upto || length <= conn.upto)
    && (end == Disconnected ==> |conn.ds| >= attempt.capacity)
  }

  /**
   * Connects again and again, each time after the last cursor received, while producers append.
   * Whatever was delivered and wherever each connection broke, the client ends up holding the fold
   * of the log up to its cursor.
   */
  method KeepReconnecting(bridge: Bridge, attempts: seq<Attempt>)
    returns (view: View, ghost conns: seq<Connection>, ghost ends: seq<StreamEnd>)
    requires LogInv(bridge.View()) && bridge.readCount > 0
    modifies bridge
    ensures LogInv(bridge.View()) && old(bridge.log) <= bridge.log
    ensures |conns| == |attempts| && Session(bridge.log, conns) && view == SessionView(conns)
    ensures NoLaterStart(bridge.log) ==> Synced(bridge.log, view)
    ensures old(IsTerminal(bridge.View())) ==> bridge.View() == old(bridge.View())
    ensures |ends| == |attempts|
    ensures forall a :: 0 <= a < |attempts| ==> Worked(attempts[a], conns[a], ends[a], |old(bridge.log)|)
  {
    hide Session, SessionView, Receive, Transcript, StopsProperly, Increasing, Describes, WillFinish, Synced;
    NothingYet(bridge.log);
    view, conns, ends := NOTHING, [], [];
    for a := 0 to |attempts|
      invariant LogInv(bridge.View()) && old(bridge.log) <= bridge.log
      invariant old(IsTerminal(bridge.View())) ==> bridge.View() == old(bridge.View())
      invariant |conns| == |ends| == a && Session(bridge.log, conns) && view == SessionView(conns)
      invariant forall k :: 0 <= k < a ==> Worked(attempts[k], conns[k], ends[k], |old(bridge.log)|)
    {
      ghost var log := bridge.log;
      var client := new Client(attempts[a].capacity);
      ghost var end, from, upto;
      end, from, upto := Stream(bridge, client, view.cursor, attempts[a].opening, attempts[a].turns);
      assert client.received[0..] == client.received;
      ghost var next := Connection(view.cursor, from, upto, client.received);
      LastCursorReconnects(view);
      SessionGrows(log, bridge.log, conns, next);
      view, conns, ends := Receive(view, client.received), conns + [next], ends + [end];
    }
    if NoLaterStart(bridge.log) {
      SessionIsSynced(bridge.log, conns);
    }
  }

  /** The last attempt can outlast a log of this length: rounds for every entry, and room for all it may be sent. */
  predicate Outlasts(attempt: Attempt, length: nat) {
    |attempt.turns| >= length && attempt.capacity > length + |attempt.turns| + 1
  }

  lemma OutlastingFinishes(s: Store, v: View, attempt: Attempt)
    requires LogInv(s) && (NoLaterStart(s.log) ==> Synced(s.log, v))
    ensures IsTerminal(s) && WellTyped(s.log) && NoLaterStart(s.log) && Outlasts(attempt, |s.log|) ==>
      WillFinish(s, v.cursor, 0, attempt.capacity, |attempt.turns|)
  {
    if IsTerminal(s) && WellTyped(s.log) && NoLaterStart(s.log) && Outlasts(attempt, |s.log|) {
      var n: nat :| n <= |s.log| && SyncedAt(s.log, v, n);
      TypedLogDecodes(s.log);
      hide WellTyped, LogInv, LogModel, IsTerminal, Synced;
      assert CanFinish(s, n, if n > 0 then 1 else 0, attempt.capacity, |attempt.turns|);
      if n > 0 {
        ResumeIsNeverRejected(s.log, n - 1);
        hide ReopensAt, CanFinish;
      }
    }
  }

  lemma TypedLogDecodes(log: seq<Entry>)
    requires WellTyped(log)
    ensures forall k :: 0 <= k < |log| ==> log[k].data.Wire?
  {
  }

  /** The client stands at the end of a terminal task's log, or right after a stored end. */
  predicate AtTheEnd(s: Store, v: View, n: nat) {
    && SyncedAt(s.log, v, n)
    && ((IsTerminal(s) && n == |s.log|) || (n >= 1 && IsOp(s.log[n - 1].data, End)))
  }

  predicate EndsOnlyLast(log: seq<Entry>) {
    forall k :: 0 <= k < |log| - 1 ==> !IsOp(log[k].data, End)
  }

  lemma FinishedAtTheEnd(s: Store, v: View, after: Option<StreamId>, from: nat, upto: nat, ds: seq<Delivery>)
    requires LogInv(s) && NoLaterStart(s.log) && Synced(s.log, v) && Reconnects(v, after)
    requires Transcript(s.log, after, from, upto, ds) && StopsProperly(s, after, from, upto, ds, Finished)
    ensures AtTheEnd(s, Receive(v, ds), upto)
  {
    ConnectionReaches(s.log, v, after, from, upto, ds);
    hide Transcript, Reconnects, Synced, SyncedAt, Receive, LogInv;
  }

  /**
   * Reconnecting to the end: however the earlier attempts broke off, if the task is terminal by the last one and its
   * log is well typed, a last attempt that can outlast the log finishes. A client whose last attempt finished stands
   * at the end: where no entry follows a stored end, its model is the fold of the whole log.
   */
  method ReconnectToTheEnd(bridge: Bridge, attempts: seq<Attempt>, last: Attempt)
    returns (view: View, ghost conns: seq<Connection>, ghost before: Store, ghost end: StreamEnd, ghost n: nat)
    requires LogInv(bridge.View()) && bridge.readCount > 0
    modifies bridge
    ensures LogInv(bridge.View()) && old(bridge.log) <= before.log <= bridge.log
    ensures old(IsTerminal(bridge.View())) ==> before == bridge.View() == old(bridge.View())
    ensures |conns| == |attempts| + 1 && Session(bridge.log, conns) && view == SessionView(conns)
    ensures IsTerminal(before) && WellTyped(before.log) && NoLaterStart(before.log) && Outlasts(last, |before.log|) ==>
      end == Finished
    ensures Worked(last, conns[|attempts|], end, |before.log|) && conns[|attempts|].upto == n
    ensures end == Finished && NoLaterStart(bridge.log) ==> AtTheEnd(bridge.View(), view, n)
    ensures end == Finished && NoLaterStart(bridge.log) && EndsOnlyLast(bridge.log) ==>
      view.model == LogModel(bridge.log)
  {
    hide Session, SessionView, Receive, Transcript, StopsProperly, Increasing, Describes;
    hide WellTyped, AtTheEnd, WillFinish, Synced, NoLaterStart, EndsOnlyLast, LogModel, IsTerminal;
    ghost var ends;
    view, conns, ends := KeepReconnecting(bridge, attempts);
    before := bridge.View();
    LastCursorReconnects(view);
    OutlastingFinishes(before, view, last);
    var client := new Client(last.capacity);
    ghost var from;
    end, from, n := Stream(bridge, client, view.cursor, last.opening, last.turns);
    assert client.received[0..] == client.received;
    ghost var next := Connection(view.cursor, from, n, client.received);
    SessionGrows(before.log, bridge.log, conns, next);
    if end == Finished && NoLaterStart(bridge.log) {
      SessionIsSynced(bridge.log, conns);
      FinishedAtTheEnd(bridge.View(), view, view.cursor, from, n, client.received);
      WholeLog(bridge.View(), Receive(view, client.received), n);
    }
    view, conns := Receive(view, client.received), conns + [next];
  }

  lemma WholeLog(s: Store, v: View, n: nat)
    requires AtTheEnd(s, v, n)
    ensures EndsOnlyLast(s.log) ==> v.model == LogModel(s.log)
  {
    assert s.log[..|s.log|] == s.log;
  }
}
