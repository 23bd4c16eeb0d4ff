/** The emitter that numbers one timeline (sdks/python/src/agentue/emitter.py). */
module Emitter {
  import opened Json
  import opened Model

  /** A call on the emitter. Start may bring its own sequence number; Patch stands for every set, append and error. */
  datatype Emit = EmitStart(model: Fields, seqNo: Option<nat>) | EmitPatch(event: Event) | EmitPing | EmitEnd

  /** The offset after a call, and the event it returns, absent when it raises. */
  function EmitSpec(offset: nat, call: Emit): (nat, Option<Event>) {
    match call
    case EmitStart(model, given) =>
      if given.Some? && given.value < offset then (offset, None)
      else
        var n := given.GetOr(offset + 1);
        (n, if ValidEvent(StartEvent(model, n)) then Some(StartEvent(model, n)) else None)
    case EmitPatch(event) =>
      var numbered := event.(seqNo := offset + 1);
      (offset + 1, if ValidEvent(numbered) then Some(numbered) else None)
    case EmitPing => (offset, Some(PingEvent(offset)))
    case EmitEnd => (offset + 1, Some(EndEvent(offset + 1)))
  }

  /**
   * What each call gives. A start without a number takes the next one; one that brings a number not below the offset
   * is given that very number and moves the offset to it; one that brings a smaller number raises and moves nothing.
   * A patch takes the next number and keeps its content, an end takes the next, a ping repeats the last.
   */
  lemma CallMeans(offset: nat, model: Fields, given: nat, patch: Event)
    ensures
      var (after, e) := EmitSpec(offset, EmitStart(model, None));
      after == offset + 1 && e == if ValidModel(model) then Some(StartEvent(model, after)) else None
    ensures
      var (after, e) := EmitSpec(offset, EmitStart(model, Some(given)));
      if given < offset then after == offset && e == None
      else after == given && e == if ValidModel(model) then Some(StartEvent(model, given)) else None
    ensures
      var (after, e) := EmitSpec(offset, EmitPatch(patch));
      && after == offset + 1 && (e.Some? <==> ValidEvent(patch))
      && (e.Some? ==> e.value.seqNo == after && e.value.(seqNo := patch.seqNo) == patch)
    ensures EmitSpec(offset, EmitPing) == (offset, Some(PingEvent(offset)))
    ensures EmitSpec(offset, EmitEnd) == (offset + 1, Some(EndEvent(offset + 1)))
  {
  }

  /** Every event a sequence of calls returns, in order, and the final offset. */
  function EmitAll(offset: nat, calls: seq<Emit>): (nat, seq<Event>)
    decreases |calls|
  {
    if calls == [] then (offset, [])
    else
      var (before, events) := EmitAll(offset, calls[..|calls| - 1]);
      var (after, made) := EmitSpec(before, calls[|calls| - 1]);
      (after, if made.Some? then events + [made.value] else events)
  }

  class PatchEmitter {
    var offset: nat

    constructor (startOffset: nat)
      ensures offset == startOffset
    {
      offset := startOffset;
    }

    method NextOffset() returns (n: nat)
      modifies this
      ensures n == offset == old(offset) + 1
    {
      offset := offset + 1;
      return offset;
    }

    method Start(model: Fields, given: Option<nat>) returns (r: Option<Event>)
      modifies this
      ensures (offset, r) == EmitSpec(old(offset), EmitStart(model, given))
    {
      var n: nat;
      if given.None? {
        n := NextOffset();
      } else {
        if given.value < offset {
          return None;
        }
        offset := given.value;
        n := given.value;
      }
      var e := StartEvent(model, n);
      return if ValidEvent(e) then Some(e) else None;
    }

    /** A set, append or error event, built without its number. */
    method Patch(event: Event) returns (r: Option<Event>)
      modifies this
      ensures (offset, r) == EmitSpec(old(offset), EmitPatch(event))
    {
      var n := NextOffset();
      var numbered := event.(seqNo := n);
      return if ValidEvent(numbered) then Some(numbered) else None;
    }

    method Ping() returns (e: Event)
      ensures (offset, Some(e)) == EmitSpec(offset, EmitPing)
    {
      return PingEvent(offset);
    }

    method End() returns (e: Event)
      modifies this
      ensures (offset, Some(e)) == EmitSpec(old(offset), EmitEnd)
    {
      var n := NextOffset();
      return EndEvent(n);
    }
  }

  /** A call that takes a fresh number: everything but a ping and a start that brings its own. */
  predicate Fresh(call: Emit) {
    !call.EmitPing? && (call.EmitStart? ==> call.seqNo.None?)
  }

  /**
   * Numbers never go backwards, across every kind of call. They strictly increase as long as every call takes a
   * fresh number, and every event is numbered at or below the offset when it is returned.
   */
  lemma {:induction false} NumbersNeverGoBack(offset: nat, calls: seq<Emit>)
    ensures
      var (after, events) := EmitAll(offset, calls);
      && offset <= after
      && (forall i :: 0 <= i < |events| ==> offset <= events[i].seqNo <= after)
      && (forall i, j :: 0 <= i < j < |events| ==> events[i].seqNo <= events[j].seqNo)
    ensures
      var events := EmitAll(offset, calls).1;
      (forall k :: 0 <= k < |calls| ==> Fresh(calls[k])) ==>
        && (forall i :: 0 <= i < |events| ==> offset < events[i].seqNo)
        && (forall i, j :: 0 <= i < j < |events| ==> events[i].seqNo < events[j].seqNo)
    decreases |calls|
  {
    hide ValidEvent;
    if calls != [] {
      var init := calls[..|calls| - 1];
      NumbersNeverGoBack(offset, init);
      if forall k :: 0 <= k < |calls| ==> Fresh(calls[k]) {
        assert forall k :: 0 <= k < |init| ==> init[k] == calls[k];
      }
    }
  }

  /**
   * A call whose event, if it returns one, is numbered past last, for any number last issued up to the offset: a call
   * that takes a fresh number, a start that brings a greater one, or a ping after a number that was taken but never
   * returned.
   */
  predicate Climbs(last: nat, offset: nat, call: Emit) {
    Fresh(call) || (if call.EmitStart? then call.seqNo.value > last else offset > last)
  }

  /** With every number so far returned, last is the offset: only a fresh number or a start's greater one climbs. */
  lemma CallClimbsExactly(last: nat, offset: nat, call: Emit)
    requires last <= offset && EmitSpec(offset, call).1.Some?
    ensures EmitSpec(offset, call).1.value.seqNo > last <==> Climbs(last, offset, call)
    ensures EmitSpec(offset, call).1.value.seqNo > offset <==>
      Fresh(call) || (call.EmitStart? && call.seqNo.value > offset)
  {
    hide ValidEvent;
  }

  predicate Ascending(events: seq<Event>) {
    forall i, j :: 0 <= i < j < |events| ==> events[i].seqNo < events[j].seqNo
  }

  /** Every call but the one that returns the first event climbs past the last event returned, or returns none. */
  predicate AllClimb(offset: nat, calls: seq<Emit>) {
    forall k :: 0 <= k < |calls| ==>
      var (now, made) := EmitAll(offset, calls[..k]);
      made != [] && EmitSpec(now, calls[k]).1.Some? ==> Climbs(made[|made| - 1].seqNo, now, calls[k])
  }

  lemma AllClimbInit(offset: nat, calls: seq<Emit>)
    requires calls != []
    ensures
      var init := calls[..|calls| - 1];
      var (now, made) := EmitAll(offset, init);
      AllClimb(offset, calls) <==>
        && AllClimb(offset, init)
        && (made != [] && EmitSpec(now, calls[|calls| - 1]).1.Some? ==>
          Climbs(made[|made| - 1].seqNo, now, calls[|calls| - 1]))
  {
    hide EmitAll, EmitSpec, Climbs;
    var init := calls[..|calls| - 1];
    assert forall k :: 0 <= k < |init| ==> init[..k] == calls[..k] && init[k] == calls[k];
  }

  lemma AscendingPush(events: seq<Event>, e: Event)
    ensures Ascending(events + [e]) <==> Ascending(events) && (events != [] ==> events[|events| - 1].seqNo < e.seqNo)
  {
    var longer := events + [e];
    if Ascending(longer) {
      assert forall i :: 0 <= i < |events| ==> longer[i] == events[i];
      assert events != [] ==> longer[|events| - 1].seqNo < longer[|events|].seqNo;
    }
  }

  /** The numbers of a run strictly increase if and only if every call climbs; checked call by call, before the call. */
  lemma {:induction false} RunClimbsExactly(offset: nat, calls: seq<Emit>)
    ensures Ascending(EmitAll(offset, calls).1) <==> AllClimb(offset, calls)
    decreases |calls|
  {
    if calls != [] {
      var init, last := calls[..|calls| - 1], calls[|calls| - 1];
      RunClimbsExactly(offset, init);
      NumbersNeverGoBack(offset, init);
      AllClimbInit(offset, calls);
      var (now, made) := EmitAll(offset, init);
      hide AllClimb, EmitSpec, Ascending;
      if EmitSpec(now, last).1.Some? {
        AscendingPush(made, EmitSpec(now, last).1.value);
        if made != [] {
          CallClimbsExactly(made[|made| - 1].seqNo, now, last);
        }
      }
    }
  }

  /** A start that brings the current offset repeats the last number; the emitter lets it. */
  lemma OwnNumberCanRepeat(model: Fields)
    requires ValidModel(model)
    ensures EmitAll(0, [EmitEnd, EmitStart(model, Some(1))]).1 == [EndEvent(1), StartEvent(model, 1)]
  {
    var first, both := [EmitEnd], [EmitEnd, EmitStart(model, Some(1))];
    assert both[..|both| - 1] == first && first[..|first| - 1] == [];
    calc {
      EmitAll(0, first);
      { assert EmitAll(0, []) == (0, []); assert [] + [EndEvent(1)] == [EndEvent(1)]; }
      (1, [EndEvent(1)]);
    }
    assert EmitSpec(1, both[1]) == (1, Some(StartEvent(model, 1)));
  }
}
