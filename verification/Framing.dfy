/** Frame and Unframe as they run: a greedy loop over a binary search, and a slot table. */
module Framing {
  import opened Json
  import opened Utf8
  import opened JsonText
  import opened Frames
  import opened FrameLaws

  /** The last boundary at or before a position. */
  function FloorBoundary(s: Bytes, i: nat): (end: nat)
    requires i <= |s|
    ensures end <= i && Boundary(s, end)
    ensures forall j :: end < j <= i ==> !Boundary(s, j)
  {
    if i == 0 || i == |s| || RuneStart(s[i]) then i else FloorBoundary(s, i - 1)
  }

  lemma FloorIsGreatest(s: Bytes, i: nat, j: nat)
    requires j <= i <= |s| && Boundary(s, j)
    ensures j <= FloorBoundary(s, i)
  {
  }

  lemma FloorGrows(s: Bytes, i: nat, j: nat)
    requires i <= j <= |s|
    ensures FloorBoundary(s, i) <= FloorBoundary(s, j)
  {
    FloorIsGreatest(s, j, FloorBoundary(s, i));
  }

  lemma QuotedLength(s: Bytes)
    ensures |Quote(s)| == EscapedSize(s) + 2
  {
    EscapedSizeIsLength(s);
  }

  predicate FloorFits(s: Bytes, i: nat, budget: int)
    requires i <= |s|
  {
    Fits(s[..FloorBoundary(s, i)], budget)
  }

  /** Fitting is lost once and for all as the position grows. */
  lemma FloorFitsShrinks(s: Bytes, i: nat, j: nat, budget: int)
    requires ValidUtf8(s) && i <= j <= |s| && FloorFits(s, j, budget)
    ensures FloorFits(s, i, budget)
  {
    FloorGrows(s, i, j);
    EscapedPrefixGrows(s, FloorBoundary(s, i), FloorBoundary(s, j));
  }

  /** The position a search over boundaries converges to is the longest fit. */
  lemma SearchEnds(s: Bytes, budget: int, hi: nat)
    requires ValidUtf8(s) && budget > 0 && hi <= |s| && hi <= budget
    requires FloorFits(s, hi, budget)
    requires hi < |s| && hi < budget ==> !FloorFits(s, hi + 1, budget)
    ensures FloorBoundary(s, hi) == LongestFit(s, budget)
  {
    hide RuneLen, RuneCost, LongestFit, EscapedSize;
    var longest := LongestFit(s, budget);
    LongestFitIsBoundary(s, budget);
    LongestFitIsLongest(s, budget, FloorBoundary(s, hi));
    BoundaryCuts(s, longest);
    EscapingGrows(s[..longest]);
    if hi < longest {
      FloorIsGreatest(s, longest, longest);
      FloorFitsShrinks(s, hi + 1, longest, budget);
    } else {
      FloorIsGreatest(s, hi, longest);
    }
  }

  /** Rounds an offset down to a character boundary and measures the prefix there. */
  method Measure(remaining: Bytes, mid: nat, budget: int) returns (end: nat, fits: bool)
    requires mid <= |remaining|
    ensures end == FloorBoundary(remaining, mid)
    ensures fits <==> FloorFits(remaining, mid, budget)
  {
    end := mid;
    while end > 0 && end < |remaining| && !RuneStart(remaining[end])
      invariant 0 <= end <= mid && FloorBoundary(remaining, end) == FloorBoundary(remaining, mid)
    {
      end := end - 1;
    }
    var encoded := Quote(remaining[..end]);
    FitsIsQuotedLength(remaining[..end], budget);
    fits := |encoded| - 2 <= budget;
  }

  /** Binary search over byte offsets, rounding down to a character boundary, for the longest prefix within budget. */
  method TakePrefix(remaining: Bytes, budget: int) returns (take: nat)
    requires ValidUtf8(remaining) && remaining != [] && budget > 0
    ensures take == LongestFit(remaining, budget)
  {
    hide RuneLen, LongestFit, FloorFits, FloorBoundary, ValidUtf8, Boundary;
    var cap := if |remaining| <= budget then |remaining| else budget;
    var lo, hi := 1, cap;
    take := 0;
    EmptyFits(remaining, budget);
    while lo <= hi
      invariant 1 <= lo <= hi + 1 <= cap + 1
      invariant FloorFits(remaining, lo - 1, budget) && take == FloorBoundary(remaining, lo - 1)
      invariant hi < cap ==> !FloorFits(remaining, hi + 1, budget)
      decreases hi - lo
    {
      var mid := lo + (hi - lo) / 2;
      var end, fits := Measure(remaining, mid, budget);
      if fits {
        FloorGrows(remaining, lo - 1, mid);
        take := if take < end then end else take;
        lo := mid + 1;
      } else {
        hi := mid - 1;
      }
    }
    SearchEnds(remaining, budget, hi);
  }

  lemma EmptyFits(s: Bytes, budget: int)
    requires budget > 0
    ensures FloorFits(s, 0, budget) && FloorBoundary(s, 0) == 0
  {
    assert s[..0] == [];
  }

  lemma FitsIsQuotedLength(s: Bytes, budget: int)
    ensures Fits(s, budget) <==> |Quote(s)| - 2 <= budget
  {
    QuotedLength(s);
  }

  /** A frame before the number of frames is known. */
  function Untotalled(f: FrameBlock): FrameBlock {
    f.(total := 0)
  }

  /** The frames cut so far and the rest of the text make up what greedy splitting gives. */
  ghost predicate CutSoFar(block: Bytes, budget: int, parts: seq<Bytes>, remaining: Bytes)
  {
    && ValidUtf8(block) && ValidUtf8(remaining)
    && Greedy(block, budget) == match Greedy(remaining, budget)
                                case None => None
                                case Some(rest) => Some(parts + rest)
  }

  lemma CutOne(block: Bytes, budget: int, parts: seq<Bytes>, remaining: Bytes)
    requires CutSoFar(block, budget, parts, remaining) && remaining != [] && LongestFit(remaining, budget) > 0
    ensures
      var take := LongestFit(remaining, budget);
      CutSoFar(block, budget, parts + [remaining[..take]], remaining[take..])
  {
    hide RuneLen, LongestFit;
    var take := LongestFit(remaining, budget);
    LongestFitIsBoundary(remaining, budget);
    BoundaryCuts(remaining, take);
    var rest := Greedy(remaining[take..], budget);
    if rest.Some? {
      assert parts + ([remaining[..take]] + rest.value) == parts + [remaining[..take]] + rest.value;
    }
  }

  /** Splits one complete inline block into frames that each encode to at most maxBytes. */
  method Frame(reader: Reader, random: nat -> Nonce, block: Bytes, maxBytes: int) returns (r: Framing)
    ensures r == FrameSpec(reader, random, block, maxBytes)
  {
    hide Encode, Greedy, ValidUtf8;
    var identity := BlockIdentity(reader, block);
    if identity.None? {
      return BadBlock;
    }
    var blockId := identity.value;
    var envelope := Encode(Prototype(blockId, |block|));
    var budget := maxBytes - |envelope|;
    assert budget == Budget(blockId, |block|, maxBytes);
    if budget <= 0 {
      return NoRoomForEnvelope;
    }
    var parts, fits := CutAll(block, budget);
    if !fits {
      return NoRoomForCharacter;
    }
    var frames := Number(random, blockId, parts);
    assert frames == seq(|parts|, k requires 0 <= k < |parts| => FrameAt(random, blockId, parts, k));
    r := Framed(frames);
  }

  /** The greedy loop: cut the longest fitting prefix until nothing remains. */
  method CutAll(block: Bytes, budget: int) returns (parts: seq<Bytes>, fits: bool)
    requires ValidUtf8(block) && budget > 0
    ensures Greedy(block, budget) == if fits then Some(parts) else None
  {
    hide RuneLen, LongestFit;
    var remaining := block;
    parts, fits := [], true;
    StartCutting(block, budget);
    while remaining != []
      invariant CutSoFar(block, budget, parts, remaining)
      decreases |remaining|
    {
      var take := TakePrefix(remaining, budget);
      if take == 0 {
        return [], false;
      }
      CutOne(block, budget, parts, remaining);
      parts := parts + [remaining[..take]];
      remaining := remaining[take..];
    }
    assert parts + [] == parts;
  }

  lemma StartCutting(block: Bytes, budget: int)
    requires ValidUtf8(block)
    ensures CutSoFar(block, budget, [], block)
  {
    if Greedy(block, budget).Some? {
      assert [] + Greedy(block, budget).value == Greedy(block, budget).value;
    }
  }

  /** Gives every fragment its identity and position, and then the total, in place. */
  method Number(random: nat -> Nonce, blockId: Bytes, parts: seq<Bytes>) returns (frames: seq<FrameBlock>)
    ensures |frames| == |parts|
    ensures forall k :: 0 <= k < |parts| ==> frames[k] == FrameAt(random, blockId, parts, k)
  {
    frames := [];
    while |frames| < |parts|
      invariant |frames| <= |parts|
      invariant forall k :: 0 <= k < |frames| ==> frames[k] == Untotalled(FrameAt(random, blockId, parts, k))
    {
      var k := |frames|;
      frames := frames + [FrameBlock(Hex(random(k)), FRAME_TYPE, blockId, k, 0, parts[k])];
    }
    var i := 0;
    while i < |frames|
      invariant i <= |frames| == |parts|
      invariant forall k :: 0 <= k < i ==> frames[k] == FrameAt(random, blockId, parts, k)
      invariant forall k :: i <= k < |frames| ==> frames[k] == Untotalled(FrameAt(random, blockId, parts, k))
    {
      frames := frames[i := frames[i].(total := |frames|)];
      i := i + 1;
    }
  }

  // ---------------------------------------------------------------------------------------------
  // Reassembly

  /** The slots after the first i frames: the data of whichever frame claimed each position. */
  predicate Filled(ordered: seq<Bytes>, frames: seq<FrameBlock>, i: nat)
    requires i <= |frames|
  {
    && |ordered| == |frames|
    && (forall k :: 0 <= k < i ==>
      0 <= frames[k].seqNo < |frames| && frames[k].data != [] && ordered[frames[k].seqNo] == frames[k].data)
    && (forall n :: 0 <= n < |frames| && ordered[n] != [] ==> exists k :: 0 <= k < i && frames[k].seqNo == n)
  }

  predicate DistinctSoFar(frames: seq<FrameBlock>, i: nat)
    requires i <= |frames|
  {
    forall j, k :: 0 <= j < k < i ==> frames[j].id != frames[k].id && frames[j].seqNo != frames[k].seqNo
  }

  lemma FilledIsOrdered(ordered: seq<Bytes>, frames: seq<FrameBlock>)
    requires WellFormedGroup(frames) && Filled(ordered, frames, |frames|)
    ensures ordered == Ordered(frames, |frames|)
  {
    PositionsAreAll(frames);
    forall n | 0 <= n < |frames| ensures ordered[n] == DataAt(frames, n) {
      assert Occupied(frames, n);
      var k :| 0 <= k < |frames| && frames[k].seqNo == n;
      DataAtIs(frames, k);
    }
  }

  method Join(parts: seq<Bytes>) returns (r: Bytes)
    ensures r == Concat(parts)
  {
    r := [];
    var i := |parts|;
    while i > 0
      invariant 0 <= i <= |parts| && r == Concat(parts[i..])
    {
      i := i - 1;
      r := parts[i] + r;
      assert parts[i..][1..] == parts[i + 1..];
    }
    assert parts[0..] == parts;
  }

  lemma IllFormed(frames: seq<FrameBlock>, i: nat)
    requires i < |frames| && !WellFormedFrame(frames[i], frames[0].blockId, |frames|)
    ensures !WellFormedGroup(frames)
  {
  }

  lemma Clash(frames: seq<FrameBlock>, k: nat, i: nat)
    requires k < i < |frames| && (frames[k].id == frames[i].id || frames[k].seqNo == frames[i].seqNo)
    ensures !WellFormedGroup(frames)
  {
  }

  lemma CompleteGroup(frames: seq<FrameBlock>)
    requires frames != [] && DistinctSoFar(frames, |frames|)
    requires forall k :: 0 <= k < |frames| ==> WellFormedFrame(frames[k], frames[0].blockId, |frames|)
    ensures WellFormedGroup(frames)
  {
  }

  lemma DistinctOneMore(frames: seq<FrameBlock>, i: nat)
    requires i < |frames| && DistinctSoFar(frames, i)
    requires forall k :: 0 <= k < i ==> frames[k].id != frames[i].id && frames[k].seqNo != frames[i].seqNo
    ensures DistinctSoFar(frames, i + 1)
  {
  }

  /** A slot that is not empty was taken by an earlier frame. */
  lemma SlotTaken(ordered: seq<Bytes>, frames: seq<FrameBlock>, i: nat, n: int) returns (k: nat)
    requires i <= |frames| && Filled(ordered, frames, i) && 0 <= n < |frames| && ordered[n] != []
    ensures k < i && frames[k].seqNo == n
  {
    k :| 0 <= k < i && frames[k].seqNo == n;
  }

  /** Checks each frame against the ids seen and the slots taken, and fills its slot. */
  method FillSlots(frames: seq<FrameBlock>) returns (ok: bool, ordered: seq<Bytes>)
    requires frames != []
    ensures ok <==> WellFormedGroup(frames)
    ensures ok ==> ordered == Ordered(frames, |frames|)
  {
    hide WellFormedGroup, Filled, DistinctSoFar, ValidUtf8, Ordered;
    var n := |frames|;
    var blockId := frames[0].blockId;
    var slots := new Bytes[n](_ => []);
    var ids: set<Bytes> := {};
    ordered := [];
    EmptySlots(slots[..], frames);
    for i := 0 to n
      invariant Filled(slots[..], frames, i)
      invariant forall k :: 0 <= k < i ==> WellFormedFrame(frames[k], blockId, n)
      invariant DistinctSoFar(frames, i)
      invariant forall id :: id in ids <==> exists k :: 0 <= k < i && frames[k].id == id
    {
      var f := frames[i];
      if f.id in ids {
        ghost var k :| 0 <= k < i && frames[k].id == f.id;
        Clash(frames, k, i);
        return false, [];
      }
      if f.frameType != FRAME_TYPE || f.id == [] || f.blockId != blockId || f.total != n
         || f.seqNo < 0 || n <= f.seqNo || f.data == [] || !ValidUtf8(f.data) {
        IllFormed(frames, i);
        return false, [];
      }
      if slots[f.seqNo] != [] {
        ghost var k := SlotTaken(slots[..], frames, i, f.seqNo);
        Clash(frames, k, i);
        return false, [];
      }
      ids := ids + {f.id};
      ghost var before := slots[..];
      slots[f.seqNo] := f.data;
      assert slots[..] == before[f.seqNo := f.data];
      FillOne(before, frames, i);
      DistinctOneMore(frames, i);
    }
    CompleteGroup(frames);
    FilledIsOrdered(slots[..], frames);
    return true, slots[..];
  }

  lemma EmptySlots(ordered: seq<Bytes>, frames: seq<FrameBlock>)
    requires |ordered| == |frames| && forall k :: 0 <= k < |ordered| ==> ordered[k] == []
    ensures Filled(ordered, frames, 0) && DistinctSoFar(frames, 0)
  {
  }

  lemma FillOne(ordered: seq<Bytes>, frames: seq<FrameBlock>, i: nat)
    requires i < |frames| && Filled(ordered, frames, i)
    requires 0 <= frames[i].seqNo < |frames| && frames[i].data != [] && ordered[frames[i].seqNo] == []
    ensures Filled(ordered[frames[i].seqNo := frames[i].data], frames, i + 1)
    ensures forall k :: 0 <= k < i ==> frames[k].seqNo != frames[i].seqNo
  {
    var updated := ordered[frames[i].seqNo := frames[i].data];
    forall n | 0 <= n < |frames| && updated[n] != [] ensures exists k :: 0 <= k < i + 1 && frames[k].seqNo == n {
      if n == frames[i].seqNo {
        assert frames[i].seqNo == n;
      } else {
        var k :| 0 <= k < i && frames[k].seqNo == n;
      }
    }
  }

  /** Reassembles one complete group given in any order. */
  method Unframe(reader: Reader, frames: seq<FrameBlock>) returns (r: Option<Bytes>)
    ensures r == UnframeSpec(reader, frames)
  {
    if |frames| == 0 || frames[0].total != |frames| {
      return None;
    }
    var ok, ordered := FillSlots(frames);
    if !ok {
      return None;
    }
    var block := Join(ordered);
    var restored := BlockIdentity(reader, block);
    if restored.None? || restored.value != frames[0].blockId {
      return None;
    }
    return Some(block);
  }
}
