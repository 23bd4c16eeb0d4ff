/** A client that reconnects as often as it likes holds the same model as one that never did. */
module ResumeLaws {
  import opened Json
  import opened Model
  import opened EventLog
  import opened Replay
  import opened ModelValidity
  import Masks
  import R = Reducer
  import ReducerLaws

  /** What the client does with a payload: it applies the event. */
  function ApplyData(model: Fields, data: Data): Fields {
    match data
    case Wire(e, _) => R.Apply(model, e).state
    case Garbage(_, _) => model
  }

  /** What a client holds: its model, and the last cursor it was sent. */
  datatype View = View(model: Fields, cursor: Option<StreamId>)

  const NOTHING := View(map[], None)

  function Receive(v: View, ds: seq<Delivery>): (r: View)
    decreases |ds|
  {
    if ds == [] then v
    else
      var init := Receive(v, ds[..|ds| - 1]);
      var d := ds[|ds| - 1];
      View(ApplyData(init.model, d.data), if d.cursor.Some? then d.cursor else init.cursor)
  }

  /** The fold of stored entries, over all of them or over all but the starts. */
  function FoldEntries(model: Fields, entries: seq<Entry>, skipStarts: bool): (r: Fields)
    decreases |entries|
  {
    if entries == [] then model
    else
      var init := FoldEntries(model, entries[..|entries| - 1], skipStarts);
      var last := entries[|entries| - 1];
      if Skips(skipStarts, last) then init else ApplyData(init, last.data)
  }

  /** The state of the task after a stored prefix. */
  function LogModel(entries: seq<Entry>): Fields {
    FoldEntries(map[], entries, false)
  }

  /** A snapshot handed to a resuming client is the fold of what its cursor covers. */
  lemma {:induction false} RebuildIsTheFold(entries: seq<Entry>)
    requires Rebuild(entries).Rebuilt?
    ensures Rebuild(entries).snapshot == LogModel(entries)
    decreases |entries|
  {
    if entries != [] {
      RebuildIsTheFold(entries[..|entries| - 1]);
    }
  }

  /** The number a rebuilt start carries is that of the last entry that is not a ping, or 0 without one. */
  lemma {:induction false} RebuiltNumber(entries: seq<Entry>, k: nat)
    requires Rebuild(entries).Rebuilt? && k <= |entries|
    requires k > 0 ==> !IsOp(entries[k - 1].data, Ping)
    requires forall i :: k <= i < |entries| ==> IsOp(entries[i].data, Ping)
    ensures Rebuild(entries).lastSeq == if k == 0 then 0 else SeqOf(entries[k - 1].data)
    decreases |entries|
  {
    hide R.Apply;
    if k < |entries| {
      var init := entries[..|entries| - 1];
      assert forall i :: k <= i < |init| ==> init[i] == entries[i];
      RebuiltNumber(init, k);
    }
  }

  /** A resume leaves out starts and nothing else; a first connection leaves out nothing. */
  predicate Delivers(log: seq<Entry>, resumed: bool, k: nat)
    requires k < |log|
  {
    !(resumed && log[k].data.Wire? && log[k].data.event.op.Start?)
  }

  /** Entry by entry: one that is delivered comes once, as stored and in its place; one that is not, not at all. */
  lemma {:induction false} StoredExactly(log: seq<Entry>, resumed: bool, from: nat, till: nat, k: nat)
    requires from <= k < till <= |log|
    ensures
      var before, with_ := Stored(log, resumed, from, k), Stored(log, resumed, from, k + 1);
      && with_ <= Stored(log, resumed, from, till)
      && with_ == before + if Delivers(log, resumed, k) then [Delivery(Some(log[k].cursor), log[k].data)] else []
    ensures Stored(log, resumed, from, from) == []
    decreases till
  {
    if k + 1 < till {
      StoredExactly(log, resumed, from, till - 1, k);
    }
    assert Stored(log, resumed, from, k) + [] == Stored(log, resumed, from, k);
  }

  /** Deliveries without a cursor, past a rebuilt start, carry no state. */
  predicate Stateless(d: Delivery) {
    d.cursor.Some? || (d.data.Wire? && (d.data.event.op.Ping? || d.data.event.op.End?))
  }

  lemma {:induction false} StatelessDoNothing(v: View, ds: seq<Delivery>)
    requires forall i :: 0 <= i < |ds| ==> Stateless(ds[i])
    ensures Receive(v, ds) == Receive(v, Persisted(ds))
    decreases |ds|
  {
    if ds != [] {
      var init, d := ds[..|ds| - 1], ds[|ds| - 1];
      StatelessDoNothing(v, init);
      if d.cursor.Some? {
        var kept := Persisted(init);
        assert (kept + [d])[..|kept|] == kept;
      }
    }
  }

  lemma ReceiveOne(v: View, ds: seq<Delivery>, d: Delivery)
    ensures Receive(v, ds + [d])
         == View(ApplyData(Receive(v, ds).model, d.data), if d.cursor.Some? then d.cursor else Receive(v, ds).cursor)
  {
    assert (ds + [d])[..|ds|] == ds;
  }

  lemma FoldOneMore(model: Fields, log: seq<Entry>, from: nat, upto: nat, skipStarts: bool)
    requires from < upto <= |log|
    ensures
      var init := FoldEntries(model, log[from..upto - 1], skipStarts);
      FoldEntries(model, log[from..upto], skipStarts)
      == if Skips(skipStarts, log[upto - 1]) then init else ApplyData(init, log[upto - 1].data)
  {
    hide ApplyData, Skips;
    var longer := log[from..upto];
    assert longer[|longer| - 1] == log[upto - 1];
    assert longer[..|longer| - 1] == log[from..upto - 1];
  }

  /** Receiving stored entries is folding them. */
  lemma {:induction false} ReceivingIsFolding(v: View, log: seq<Entry>, resumed: bool, from: nat, upto: nat)
    requires from <= upto <= |log|
    ensures Receive(v, Stored(log, resumed, from, upto)).model == FoldEntries(v.model, log[from..upto], resumed)
    decreases upto
  {
    if from == upto {
      assert log[from..upto] == [];
    } else {
      ReceivingIsFolding(v, log, resumed, from, upto - 1);
      FoldOneMore(v.model, log, from, upto, resumed);
      ReceiveOne(v, Stored(log, resumed, from, upto - 1), Delivery(Some(log[upto - 1].cursor), log[upto - 1].data));
      hide Receive, FoldEntries, ApplyData;
    }
  }

  predicate NoLaterStart(log: seq<Entry>) {
    forall k :: 1 <= k < |log| ==> !IsOp(log[k].data, Start)
  }

  lemma {:induction false} NothingSkipped(log: seq<Entry>, resumed: bool, from: nat, till: nat)
    requires from <= till <= |log| && NoLaterStart(log) && (resumed ==> from >= 1)
    ensures |Stored(log, resumed, from, till)| == till - from
    ensures forall k :: 0 <= k < till - from ==>
      Stored(log, resumed, from, till)[k] == Delivery(Some(log[from + k].cursor), log[from + k].data)
    decreases till
  {
    if from < till {
      NothingSkipped(log, resumed, from, till - 1);
      var last := log[till - 1];
      assert !Skips(resumed, last);
      var init := Stored(log, resumed, from, till - 1);
      var longer := init + [Delivery(Some(last.cursor), last.data)];
      assert Stored(log, resumed, from, till) == longer;
      forall k | 0 <= k < till - from ensures longer[k] == Delivery(Some(log[from + k].cursor), log[from + k].data) {
        if k < |init| {
          assert longer[k] == init[k];
        }
      }
    }
  }

  lemma {:induction false} PersistedPrefix(ds: seq<Delivery>, j: nat)
    requires j <= |ds|
    ensures Persisted(ds[..j]) <= Persisted(ds)
    decreases |ds|
  {
    if j == |ds| {
      assert ds[..j] == ds;
    } else {
      assert ds[..|ds| - 1][..j] == ds[..j];
      PersistedPrefix(ds[..|ds| - 1], j);
    }
  }

  /** The client stands after the first n entries: its model is their fold, and its cursor names the last of them. */
  predicate SyncedAt(log: seq<Entry>, v: View, n: nat) {
    && n <= |log|
    && v.model == LogModel(log[..n])
    && v.cursor == if n == 0 then None else Some(log[n - 1].cursor)
  }

  predicate Synced(log: seq<Entry>, v: View) {
    exists n: nat :: n <= |log| && SyncedAt(log, v, n)
  }

  lemma {:induction false} FoldContinues(model: Fields, log: seq<Entry>, from: nat, upto: nat)
    requires from <= upto <= |log|
    ensures FoldEntries(FoldEntries(model, log[..from], false), log[from..upto], false)
      == FoldEntries(model, log[..upto], false)
    decreases upto
  {
    if from < upto {
      FoldContinues(model, log, from, upto - 1);
      FoldOneMore(FoldEntries(model, log[..from], false), log, from, upto, false);
      assert log[0..upto] == log[..upto] && log[0..upto - 1] == log[..upto - 1];
      FoldOneMore(model, log, 0, upto, false);
    } else {
      assert log[from..upto] == [];
    }
  }

  lemma {:induction false} NothingToSkip(model: Fields, entries: seq<Entry>)
    requires forall k :: 0 <= k < |entries| ==> !IsOp(entries[k].data, Start)
    ensures FoldEntries(model, entries, true) == FoldEntries(model, entries, false)
    decreases |entries|
  {
    if entries != [] {
      NothingToSkip(model, entries[..|entries| - 1]);
    }
  }

  lemma {:induction false} LastReceivedCursor(v: View, ds: seq<Delivery>)
    requires forall i :: 0 <= i < |ds| ==> ds[i].cursor.Some?
    ensures Receive(v, ds).cursor == if ds == [] then v.cursor else ds[|ds| - 1].cursor
  {
  }

  /** Cut the loop after any delivery: what counts is a stretch of stored entries. */
  lemma LoopPrefix(v: View, log: seq<Entry>, resumed: bool, from: nat, upto: nat, ds: seq<Delivery>, before: nat,
      j: nat)
    returns (p: nat)
    requires NoLaterStart(log) && (resumed ==> from >= 1)
    requires Deliveries(log, resumed, from, upto, ds, before) && j <= |ds|
    ensures from + p <= upto && Receive(v, ds[..j]) == Receive(v, Stored(log, resumed, from, from + p))
  {
    PersistedPrefix(ds, j);
    p := |Persisted(ds[..j])|;
    NothingSkipped(log, resumed, from, upto);
    NothingSkipped(log, resumed, from, from + p);
    assert Persisted(ds[..j]) == Persisted(ds)[..p] == Stored(log, resumed, from, from + p);
    forall i | 0 <= i < j ensures Stateless(ds[..j][i]) {
      assert InPlace(ds, i, before);
    }
    StatelessDoNothing(v, ds[..j]);
  }

  lemma StoredModel(v: View, log: seq<Entry>, resumed: bool, from: nat, till: nat)
    requires NoLaterStart(log) && from <= till <= |log| && (resumed ==> from >= 1)
    requires v.model == LogModel(log[..from])
    ensures Receive(v, Stored(log, resumed, from, till)).model == LogModel(log[..till])
  {
    ReceivingIsFolding(v, log, resumed, from, till);
    if resumed {
      NothingToSkip(v.model, log[from..till]);
    }
    FoldContinues(map[], log, from, till);
  }

  lemma StoredCursor(v: View, log: seq<Entry>, resumed: bool, from: nat, till: nat)
    requires NoLaterStart(log) && from <= till <= |log| && (resumed ==> from >= 1)
    ensures Receive(v, Stored(log, resumed, from, till)).cursor
      == if from == till then v.cursor else Some(log[till - 1].cursor)
  {
    NothingSkipped(log, resumed, from, till);
    LastReceivedCursor(v, Stored(log, resumed, from, till));
  }

  lemma LoopKeepsSync(v: View, log: seq<Entry>, resumed: bool, from: nat, upto: nat, ds: seq<Delivery>, before: nat,
      j: nat)
    requires NoLaterStart(log) && Deliveries(log, resumed, from, upto, ds, before) && j <= |ds|
    requires SyncedAt(log, v, from) && (resumed ==> from >= 1)
    ensures Synced(log, Receive(v, ds[..j]))
  {
    var p := LoopPrefix(v, log, resumed, from, upto, ds, before, j);
    StoredModel(v, log, resumed, from, from + p);
    StoredCursor(v, log, resumed, from, from + p);
    assert SyncedAt(log, Receive(v, ds[..j]), from + p);
  }

  /** A rebuilt start gives the client the model it already had. */
  lemma RebuiltStartKeepsView(log: seq<Entry>, v: View, n: nat)
    requires SyncedAt(log, v, n) && Startable(log[..n])
    ensures Receive(v, [RebuiltStart(log[..n])]) == v
  {
    RebuildIsTheFold(log[..n]);
    ReceiveOne(v, [], RebuiltStart(log[..n]));
    assert [] + [RebuiltStart(log[..n])] == [RebuiltStart(log[..n])];
  }

  lemma {:induction false} ReceiveAppends(v: View, a: seq<Delivery>, b: seq<Delivery>)
    ensures Receive(v, a + b) == Receive(Receive(v, a), b)
    decreases |b|
  {
    if b == [] {
      assert a + b == a;
    } else {
      assert (a + b)[..|a + b| - 1] == a + b[..|b| - 1];
      ReceiveAppends(v, a, b[..|b| - 1]);
    }
  }

  /** The client asks for what follows the last cursor it was sent. */
  predicate Reconnects(v: View, after: Option<StreamId>) {
    if v.cursor.None? then !Resuming(after) else after == v.cursor
  }

  /** A cursor names one place in the log. */
  lemma CursorPlace(log: seq<Entry>, m: nat, n: nat)
    requires Increasing(log) && 1 <= m <= |log| && 1 <= n <= |log| && log[m - 1].cursor == log[n - 1].cursor
    ensures m == n
  {
  }

  lemma ResumedConnectionKeepsSync(log: seq<Entry>, v: View, n: nat, upto: nat, start: Delivery, rest: seq<Delivery>,
      j: nat)
    requires NoLaterStart(log) && n >= 1 && SyncedAt(log, v, n) && Startable(log[..n])
    requires start == RebuiltStart(log[..n])
    requires Deliveries(log, true, n, upto, rest, Rebuild(log[..n]).lastSeq) && j <= |rest|
    ensures Synced(log, Receive(v, [start] + rest[..j]))
  {
    RebuiltStartKeepsView(log, v, n);
    LoopKeepsSync(v, log, true, n, upto, rest, Rebuild(log[..n]).lastSeq, j);
    ReceiveAppends(v, [start], rest[..j]);
  }

  /** One connection, cut after any delivery, keeps the client in step with the log. */
  lemma ConnectionKeepsSync(log: seq<Entry>, v: View, after: Option<StreamId>, from: nat, upto: nat,
      ds: seq<Delivery>, j: nat)
    requires Increasing(log) && NoLaterStart(log) && Synced(log, v) && Reconnects(v, after)
    requires Transcript(log, after, from, upto, ds) && j <= |ds|
    ensures Synced(log, Receive(v, ds[..j]))
  {
    var n: nat :| n <= |log| && SyncedAt(log, v, n);
    if n == 0 {
      LoopKeepsSync(v, log, false, 0, upto, ds, 0, j);
    } else {
      ReconnectionKeepsSync(log, v, after, n, from, upto, ds, j);
    }
  }

  lemma ReconnectionKeepsSync(log: seq<Entry>, v: View, after: Option<StreamId>, n: nat, from: nat, upto: nat,
      ds: seq<Delivery>, j: nat)
    requires Increasing(log) && NoLaterStart(log) && n >= 1 && SyncedAt(log, v, n) && Reconnects(v, after)
    requires Transcript(log, after, from, upto, ds) && j <= |ds|
    ensures Synced(log, Receive(v, ds[..j]))
  {
    if j == 0 {
      assert ds[..j] == [];
    } else {
      ResumesWhereItStands(log, v, after, n, from, upto, ds);
      HeadAndRest(ds, j);
      ResumedConnectionKeepsSync(log, v, n, upto, ds[0], ds[1..], j - 1);
    }
  }

  lemma HeadAndRest(ds: seq<Delivery>, j: nat)
    requires 1 <= j <= |ds|
    ensures ds[..j] == [ds[0]] + ds[1..][..j - 1]
  {
  }

  /** A resumed connection covers exactly what its client already has. */
  lemma ResumesWhereItStands(log: seq<Entry>, v: View, after: Option<StreamId>, n: nat, from: nat, upto: nat,
      ds: seq<Delivery>)
    requires Increasing(log) && n >= 1 && SyncedAt(log, v, n) && Reconnects(v, after)
    requires Transcript(log, after, from, upto, ds) && ds != []
    ensures from == n && Startable(log[..n]) && ds[0] == RebuiltStart(log[..n])
    ensures Deliveries(log, true, n, upto, ds[1..], Rebuild(log[..n]).lastSeq)
  {
    assert Before(ORIGIN, log[n - 1].cursor);
    CursorPlace(log, n, from);
  }

  /** A whole loop takes the client to the last entry it consumed. */
  lemma LoopReaches(v: View, log: seq<Entry>, resumed: bool, from: nat, upto: nat, ds: seq<Delivery>, before: nat)
    requires NoLaterStart(log) && Deliveries(log, resumed, from, upto, ds, before)
    requires SyncedAt(log, v, from) && (resumed ==> from >= 1)
    ensures SyncedAt(log, Receive(v, ds), upto)
  {
    forall i | 0 <= i < |ds| ensures Stateless(ds[i]) {
      assert InPlace(ds, i, before);
    }
    StatelessDoNothing(v, ds);
    StoredModel(v, log, resumed, from, upto);
    StoredCursor(v, log, resumed, from, upto);
  }

  /** A whole connection that delivered anything takes the client to the last entry it consumed. */
  lemma ConnectionReaches(log: seq<Entry>, v: View, after: Option<StreamId>, from: nat, upto: nat, ds: seq<Delivery>)
    requires Increasing(log) && NoLaterStart(log) && Synced(log, v) && Reconnects(v, after)
    requires Transcript(log, after, from, upto, ds) && ds != []
    ensures SyncedAt(log, Receive(v, ds), upto)
  {
    var n: nat :| n <= |log| && SyncedAt(log, v, n);
    if n == 0 {
      LoopReaches(v, log, false, 0, upto, ds, 0);
    } else {
      ResumesWhereItStands(log, v, after, n, from, upto, ds);
      RebuiltStartKeepsView(log, v, n);
      LoopReaches(v, log, true, n, upto, ds[1..], Rebuild(log[..n]).lastSeq);
      ReceiveAppends(v, [ds[0]], ds[1..]);
      assert ds == [ds[0]] + ds[1..];
    }
  }

  datatype Connection = Connection(after: Option<StreamId>, from: nat, upto: nat, ds: seq<Delivery>)

  function SessionView(conns: seq<Connection>): (v: View)
    decreases |conns|
  {
    if conns == [] then NOTHING else Receive(SessionView(conns[..|conns| - 1]), conns[|conns| - 1].ds)
  }

  /** Any number of connections, each resumed where the deliveries before it left off. */
  predicate Session(log: seq<Entry>, conns: seq<Connection>)
    decreases |conns|
  {
    conns == [] ||
    (var init, last := conns[..|conns| - 1], conns[|conns| - 1];
     && Session(log, init)
     && Reconnects(SessionView(init), last.after)
     && Transcript(log, last.after, last.from, last.upto, last.ds))
  }

  lemma {:induction false} SessionIsSynced(log: seq<Entry>, conns: seq<Connection>)
    requires Increasing(log) && NoLaterStart(log) && Session(log, conns)
    ensures Synced(log, SessionView(conns))
    decreases |conns|
  {
    if conns != [] {
      var init, last := conns[..|conns| - 1], conns[|conns| - 1];
      SessionIsSynced(log, init);
      assert last.ds[..|last.ds|] == last.ds;
      ConnectionKeepsSync(log, SessionView(init), last.after, last.from, last.upto, last.ds, |last.ds|);
    } else {
      assert SyncedAt(log, NOTHING, 0);
    }
  }

  /**
   * Resume refines uninterrupted delivery: after any number of connections, and after any number
   * of deliveries of one more, the client's model is the fold of the log up to its last cursor.
   */
  lemma ResumeRefinesUninterrupted(log: seq<Entry>, conns: seq<Connection>, next: Connection, j: nat)
    requires Increasing(log) && NoLaterStart(log)
    requires Session(log, conns + [next]) && j <= |next.ds|
    ensures Synced(log, Receive(SessionView(conns), next.ds[..j]))
  {
    assert (conns + [next])[..|conns|] == conns;
    SessionIsSynced(log, conns);
    ConnectionKeepsSync(log, SessionView(conns), next.after, next.from, next.upto, next.ds, j);
  }

  /** Two clients of one task that have been sent the same last cursor hold the same model, however each got there. */
  lemma SessionsAgree(log: seq<Entry>, a: seq<Connection>, b: seq<Connection>)
    requires Increasing(log) && NoLaterStart(log) && Session(log, a) && Session(log, b)
    requires SessionView(a).cursor == SessionView(b).cursor
    ensures SessionView(a).model == SessionView(b).model
  {
    SessionIsSynced(log, a);
    SessionIsSynced(log, b);
    var m: nat :| m <= |log| && SyncedAt(log, SessionView(a), m);
    var n: nat :| n <= |log| && SyncedAt(log, SessionView(b), n);
    if m > 0 && n > 0 {
      CursorPlace(log, m, n);
    }
  }

  // ---------------------------------------------------------------------------------------------
  // When a resume cannot be refused

  predicate AllDecode(entries: seq<Entry>) {
    forall i :: 0 <= i < |entries| ==> entries[i].data.Wire?
  }

  function EventsOf(entries: seq<Entry>): (r: seq<Event>)
    requires AllDecode(entries)
  {
    seq(|entries|, i requires 0 <= i < |entries| => entries[i].data.event)
  }

  /** Rebuilding succeeds exactly when every entry decodes and the reducer accepts them in order. */
  lemma {:induction false} RebuildIsApplyAll(entries: seq<Entry>)
    requires AllDecode(entries)
    ensures Rebuild(entries).Rebuilt? <==> R.ApplyAll(map[], EventsOf(entries)).ok
    ensures Rebuild(entries).Rebuilt? ==> Rebuild(entries).snapshot == R.ApplyAll(map[], EventsOf(entries)).state
    decreases |entries|
  {
    if entries != [] {
      var init := entries[..|entries| - 1];
      RebuildIsApplyAll(init);
      assert EventsOf(entries)[..|init|] == EventsOf(init);
    }
  }

  /** A stored log that begins with a start, that the reducer accepts, and whose events leave the typed fields alone. */
  predicate WellTyped(entries: seq<Entry>) {
    && AllDecode(entries) && entries != [] && EventsOf(entries)[0].op.Start?
    && R.ApplyAll(map[], EventsOf(entries)).ok
    && KeepsTypes(EventsOf(entries))
  }

  lemma WellTypedPrefix(entries: seq<Entry>, k: nat)
    requires WellTyped(entries) && 1 <= k <= |entries|
    ensures WellTyped(entries[..k])
  {
    var prefix := EventsOf(entries[..k]);
    assert prefix == EventsOf(entries)[..k];
    ReducerLaws.AcceptedPrefix(map[], EventsOf(entries), k);
    forall i | 0 <= i < k ensures !BreaksTypes(prefix[i]) {
      assert prefix[i] == EventsOf(entries)[i];
    }
  }

  lemma WellTypedIsStartable(entries: seq<Entry>)
    requires WellTyped(entries)
    ensures Startable(entries)
  {
    RebuildIsApplyAll(entries);
    ReachableIsValid(map[], EventsOf(entries), 0);
  }

  /** A resume from any cursor of a well-typed log gets a start that validates. */
  lemma ResumeIsNeverRejected(log: seq<Entry>, i: nat)
    requires i < |log| && WellTyped(log)
    ensures ReopensAt(log, log[i].cursor, i)
  {
    WellTypedPrefix(log, i + 1);
    WellTypedIsStartable(log[..i + 1]);
  }

  // ---------------------------------------------------------------------------------------------
  // Later starts

  /** Resuming before these entries is harmless from every valid model. */
  ghost predicate ResumeSafe(entries: seq<Entry>) {
    forall model: Fields :: ValidModel(model) ==>
      FoldEntries(model, entries, true) == FoldEntries(model, entries, false)
  }

  lemma SetMetaKeepsBiz(s: Fields, path: Masks.Path, value: Json)
    requires |path| >= 1
    ensures Get(R.SetMeta(s, path, value), "biz") == Get(s, "biz")
  {
  }

  lemma SetBlockKeepsBiz(s: Fields, id: string, path: Masks.Path, value: Json)
    requires |path| >= 1
    ensures Get(R.SetBlock(s, id, path, value).state, "biz") == Get(s, "biz")
  {
  }

  lemma SetKeepsBiz(s: Fields, mask: string, source: Fields)
    ensures Get(R.SetByMask(s, mask, source).state, "biz") == Get(s, "biz")
  {
    var cut := Masks.CutAtDot(mask);
    if cut.Cut? && cut.after != "" {
      var path := Masks.Split(cut.after);
      var read := R.ReadPath(source, path);
      if read.Some? {
        SetMetaKeepsBiz(s, path, read.value);
        SetBlockKeepsBiz(s, StringOf(source, "id"), path, read.value);
      }
    }
  }

  lemma AppendKeepsBiz(s: Fields, mask: string, block: Fields)
    ensures Get(R.AppendByMask(s, mask, block).state, "biz") == Get(s, "biz")
  {
  }

  lemma EnvelopeFixed(s: Fields, e: Event)
    requires !e.op.Start?
    ensures Get(R.Apply(s, e).state, "biz") == Get(s, "biz")
  {
    if ValidEvent(e) {
      match e.op {
        case Set =>
          if e.mask != "" {
            SetKeepsBiz(s, e.mask, if e.meta.Some? then e.meta.value else e.block.value);
          }
        case Append => AppendKeepsBiz(s, e.mask, e.block.value);
        case Error => SetKeepsBiz(s, e.mask, e.meta.value);
        case _ =>
      }
    }
  }

  lemma {:induction false} SkippingKeepsBiz(model: Fields, entries: seq<Entry>)
    ensures Get(FoldEntries(model, entries, true), "biz") == Get(model, "biz")
    decreases |entries|
  {
    if entries != [] {
      var init, last := entries[..|entries| - 1], entries[|entries| - 1];
      SkippingKeepsBiz(model, init);
      if last.data.Wire? && !last.data.event.op.Start? {
        EnvelopeFixed(FoldEntries(model, init, true), last.data.event);
      }
    }
  }

  /** After a start, biz no longer depends on the model before it. */
  lemma {:induction false} StartFixesBiz(a: Fields, b: Fields, entries: seq<Entry>)
    requires exists k :: 0 <= k < |entries| && IsOp(entries[k].data, Start)
    ensures Get(FoldEntries(a, entries, false), "biz") == Get(FoldEntries(b, entries, false), "biz")
    decreases |entries|
  {
    var init, last := entries[..|entries| - 1], entries[|entries| - 1];
    if !IsOp(last.data, Start) {
      var k :| 0 <= k < |entries| && IsOp(entries[k].data, Start);
      assert init[k] == entries[k];
      StartFixesBiz(a, b, init);
      if last.data.Wire? {
        EnvelopeFixed(FoldEntries(a, init, false), last.data.event);
        EnvelopeFixed(FoldEntries(b, init, false), last.data.event);
      }
    }
  }

  lemma RenamedModelIsValid(model: Fields, biz: string)
    requires ValidModel(model) && biz != ""
    ensures ValidModel(model["biz" := Str(biz)])
  {
    var renamed := model["biz" := Str(biz)];
    assert BlocksOf(renamed) == BlocksOf(model);
  }

  /** Skipping starts on resume is right exactly when there is none to skip. */
  lemma ResumeSafeExactly(entries: seq<Entry>)
    ensures ResumeSafe(entries) <==> forall k :: 0 <= k < |entries| ==> !IsOp(entries[k].data, Start)
  {
    if k :| 0 <= k < |entries| && IsOp(entries[k].data, Start) {
      var e: Event := entries[k].data.event;
      assert ValidEvent(e);
      var a := e.model.value["biz" := Str("a")];
      var b := e.model.value["biz" := Str("b")];
      RenamedModelIsValid(e.model.value, "a");
      RenamedModelIsValid(e.model.value, "b");
      StartFixesBiz(a, b, entries);
      SkippingKeepsBiz(a, entries);
      SkippingKeepsBiz(b, entries);
    } else {
      forall model: Fields | ValidModel(model)
        ensures FoldEntries(model, entries, true) == FoldEntries(model, entries, false)
      {
        NothingToSkip(model, entries);
      }
    }
  }
}
