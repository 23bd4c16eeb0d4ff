/** What framing promises: exact reassembly, real sizes, fewest frames, and independence of order. */
module FrameLaws {
  import opened Json
  import opened Utf8
  import opened JsonText
  import opened Frames

  // ---------------------------------------------------------------------------------------------
  // Splitting

  /** A way of cutting text into fragments that a frame could carry. */
  predicate Split(parts: seq<Bytes>, s: Bytes, budget: int) {
    && Concat(parts) == s
    && forall i :: 0 <= i < |parts| ==> ValidUtf8(parts[i]) && Fits(parts[i], budget)
  }

  lemma LongestFitStep(s: Bytes, budget: int)
    requires ValidUtf8(s) && s != []
    ensures LongestFit(s, budget) > 0 <==> RuneCost(s) <= budget
  {
  }

  lemma TakeAndRest(s: Bytes, k: nat)
    requires k <= |s|
    ensures s[..k] + s[k..] == s
  {
  }

  /** Greedy splitting cuts the text into non-empty, valid, fitting fragments and loses nothing. */
  lemma {:induction false} GreedySplits(s: Bytes, budget: int)
    requires ValidUtf8(s) && budget >= 0 && Greedy(s, budget).Some?
    ensures Split(Greedy(s, budget).value, s, budget)
    ensures forall i :: 0 <= i < |Greedy(s, budget).value| ==> Greedy(s, budget).value[i] != []
    ensures |Greedy(s, budget).value| <= |s|
    decreases |s|
  {
    hide RuneLen, RuneCost, LongestFit, EscapedSize;
    if s != [] {
      var take := LongestFit(s, budget);
      LongestFitIsBoundary(s, budget);
      BoundaryCuts(s, take);
      var rest := Greedy(s[take..], budget).value;
      GreedySplits(s[take..], budget);
      var parts := Greedy(s, budget).value;
      assert parts == [s[..take]] + rest;
      assert parts[1..] == rest;
      TakeAndRest(s, take);
    }
  }

  /** A character that no frame can carry, somewhere in the text. */
  ghost predicate HasOversizedRune(s: Bytes, budget: int) {
    exists i: nat :: i < |s| && ValidUtf8(s[i..]) && RuneCost(s[i..]) > budget
  }

  lemma DropTwice(s: Bytes, i: nat, k: nat)
    requires i + k <= |s|
    ensures s[i..][k..] == s[i + k..]
  {
  }

  /** A tail of valid text is cut off at a boundary, and so is valid text before it. */
  lemma HeadIsValid(s: Bytes, i: nat)
    requires ValidUtf8(s) && i <= |s| && ValidUtf8(s[i..])
    ensures Boundary(s, i) && ValidUtf8(s[..i])
  {
    CutsAtBoundary(s, i);
    BoundaryCuts(s, i);
  }

  /** No oversized character within reach of a fitting prefix. */
  lemma FitsMeansNoOversized(s: Bytes, take: nat, i: nat, budget: int)
    requires ValidUtf8(s) && Boundary(s, take) && Fits(s[..take], budget)
    requires i < take && ValidUtf8(s[i..])
    ensures RuneCost(s[i..]) <= budget
  {
    hide RuneLen, RuneCost, EscapedSize, ValidUtf8;
    HeadIsValid(s, i);
    RuneEndsWithin(s, i, take);
    PrefixOfDrop(s, i, take);
    BoundaryCuts(s, take);
    EscapedSizeAdds(s[..i], s[i..take]);
    PastFirstRune(s[i..], take - i);
  }

  lemma PrefixOfDrop(s: Bytes, i: nat, j: nat)
    requires i <= j <= |s|
    ensures s[..j] == s[..i] + s[i..j] && s[i..][..j - i] == s[i..j]
  {
  }

  lemma RuneEndsWithin(s: Bytes, i: nat, j: nat)
    requires i < j <= |s| && ValidUtf8(s[i..]) && Boundary(s, j)
    ensures i + RuneLen(s[i..]) <= j
  {
    assert j < |s| ==> s[i..][j - i] == s[j];
  }

  /** Behind a fitting prefix there are the same oversized characters as in the whole. */
  lemma OversizedIsBehind(s: Bytes, take: nat, budget: int)
    requires ValidUtf8(s) && Boundary(s, take) && Fits(s[..take], budget)
    ensures HasOversizedRune(s, budget) <==> HasOversizedRune(s[take..], budget)
  {
    hide RuneLen, RuneCost, EscapedSize;
    var rest := s[take..];
    if HasOversizedRune(rest, budget) {
      var i: nat :| i < |rest| && ValidUtf8(rest[i..]) && RuneCost(rest[i..]) > budget;
      DropTwice(s, take, i);
      assert ValidUtf8(s[take + i..]) && RuneCost(s[take + i..]) > budget;
    }
    if HasOversizedRune(s, budget) {
      var i: nat :| i < |s| && ValidUtf8(s[i..]) && RuneCost(s[i..]) > budget;
      if i < take {
        FitsMeansNoOversized(s, take, i, budget);
      }
      DropTwice(s, take, i - take);
      assert ValidUtf8(rest[i - take..]) && RuneCost(rest[i - take..]) > budget;
    }
  }

  /** Splitting fails exactly when some character does not fit on its own. */
  lemma {:induction false} GreedyFailsExactly(s: Bytes, budget: int)
    requires ValidUtf8(s) && budget >= 0
    ensures Greedy(s, budget).None? <==> HasOversizedRune(s, budget)
    decreases |s|
  {
    hide RuneLen, RuneCost, LongestFit, EscapedSize;
    if s != [] {
      var take := LongestFit(s, budget);
      LongestFitStep(s, budget);
      LongestFitIsBoundary(s, budget);
      if take == 0 {
        assert s[0..] == s;
        assert HasOversizedRune(s, budget);
      } else {
        BoundaryCuts(s, take);
        GreedyFailsExactly(s[take..], budget);
        OversizedIsBehind(s, take, budget);
      }
    }
  }

  lemma {:induction false} ConcatValid(parts: seq<Bytes>)
    requires forall i :: 0 <= i < |parts| ==> ValidUtf8(parts[i])
    ensures ValidUtf8(Concat(parts))
  {
    if parts != [] {
      ConcatValid(parts[1..]);
      ValidConcat(parts[0], Concat(parts[1..]));
    }
  }

  /** The part of a fragment past a boundary is no larger than the fragment. */
  lemma SuffixFits(p: Bytes, k: nat, budget: int)
    requires ValidUtf8(p) && k <= |p| && ValidUtf8(p[..k]) && Fits(p, budget)
    ensures Fits(p[k..], budget)
  {
    TakeAndRest(p, k);
    EscapedSizeAdds(p[..k], p[k..]);
  }

  /** A split of a non-empty text, taken apart. */
  lemma SplitParts(parts: seq<Bytes>, s: Bytes, budget: int)
    requires s != [] && Split(parts, s, budget)
    ensures
      && parts != [] && ValidUtf8(parts[0]) && Fits(parts[0], budget)
      && s == parts[0] + Concat(parts[1..])
      && ValidUtf8(Concat(parts[1..])) && Split(parts[1..], Concat(parts[1..]), budget)
  {
    hide ValidUtf8, Fits;
    ConcatValid(parts[1..]);
  }

  lemma GreedyOnce(s: Bytes, budget: int)
    requires ValidUtf8(s) && s != [] && LongestFit(s, budget) > 0
    ensures
      var take := LongestFit(s, budget);
      && take <= |s| && ValidUtf8(s[..take]) && ValidUtf8(s[take..])
      && (Greedy(s[take..], budget).Some? ==>
        Greedy(s, budget).Some? && |Greedy(s, budget).value| == 1 + |Greedy(s[take..], budget).value|)
  {
    hide LongestFit, ValidUtf8;
    LongestFitIsBoundary(s, budget);
    BoundaryCuts(s, LongestFit(s, budget));
  }

  /** The rest of another split, behind what greedy took beyond its first part, is a split of greedy's rest. */
  lemma RestIsAhead(p: Bytes, tail: Bytes, x: Bytes, s: Bytes, take: nat)
    requires p + tail == x + s && |x| < |p| && |p| - |x| <= take <= |s|
    requires s[|p| - |x|..] == tail
    requires ValidUtf8(s[..|p| - |x|]) && ValidUtf8(s[..take])
    ensures tail == s[|p| - |x|..take] + s[take..] && ValidUtf8(s[|p| - |x|..take])
  {
    hide ValidUtf8;
    var k := |p| - |x|;
    SplitTail(s, k, take, tail);
    ValidMiddle(s[..k], s[k..take], s[..take]);
  }

  /** The greedy split of the tail after x never needs more fragments than any split of the whole. */
  lemma {:induction false} GreedyStaysAhead(parts: seq<Bytes>, x: Bytes, s: Bytes, budget: int)
    requires budget >= 0 && ValidUtf8(x) && ValidUtf8(s) && Split(parts, x + s, budget)
    ensures Greedy(s, budget).Some? && |Greedy(s, budget).value| <= |parts|
    decreases |parts|
  {
    if s != [] {
      SplitParts(parts, x + s, budget);
      hide ValidUtf8, Fits, LongestFit, Greedy, Split, Concat;
      var p, tail := parts[0], Concat(parts[1..]);
      if |p| <= |x| {
        SameEnds(p, tail, x, s);
        ValidMiddle(p, x[|p|..], x);
        GreedyStaysAhead(parts[1..], x[|p|..], s, budget);
      } else {
        TakesAtLeast(p, tail, x, s, budget);
        var take := LongestFit(s, budget);
        GreedyOnce(s, budget);
        RestIsAhead(p, tail, x, s, take);
        GreedyStaysAhead(parts[1..], s[|p| - |x|..take], s[take..], budget);
      }
    }
  }

  /** Two ways of cutting the same text: the longer head starts with the shorter. */
  lemma SameEnds(a: Bytes, b: Bytes, c: Bytes, d: Bytes)
    requires a + b == c + d && |a| <= |c|
    ensures c == a + c[|a|..] && c[..|a|] == a && b == c[|a|..] + d
  {
    assert forall i :: 0 <= i < |a| ==> a[i] == (a + b)[i] == (c + d)[i] == c[i];
    assert forall i :: 0 <= i < |b| ==> b[i] == (a + b)[|a| + i] == (c + d)[|a| + i];
  }

  lemma ValidMiddle(a: Bytes, b: Bytes, whole: Bytes)
    requires whole == a + b && ValidUtf8(a) && ValidUtf8(whole)
    ensures ValidUtf8(b)
  {
    ValidConcat(a, b);
  }

  lemma SplitTail(s: Bytes, k: nat, take: nat, tail: Bytes)
    requires k <= take <= |s| && s[k..] == tail
    ensures tail == s[k..take] + s[take..] && s[..take] == s[..k] + s[k..take]
  {
  }

  /** When a fragment of another split reaches past x, the greedy fragment reaches at least as far. */
  lemma TakesAtLeast(p: Bytes, tail: Bytes, x: Bytes, s: Bytes, budget: int)
    requires ValidUtf8(p) && ValidUtf8(tail) && ValidUtf8(x) && ValidUtf8(s)
    requires p + tail == x + s && |p| > |x| && Fits(p, budget)
    ensures |p| - |x| <= LongestFit(s, budget)
    ensures LongestFit(s, budget) > 0
    ensures ValidUtf8(s[..|p| - |x|]) && s[|p| - |x|..] == tail
  {
    hide RuneLen, RuneCost, LongestFit, EscapedSize;
    var k := |p| - |x|;
    SameEnds(x, s, p, tail);
    ValidMiddle(x, p[|x|..], p);
    SuffixFits(p, |x|, budget);
    assert s[..k] == p[|x|..] && s[k..] == tail;
    CutsAtBoundary(s, k);
    LongestFitIsLongest(s, budget, k);
  }

  /** No split that a frame format could carry uses fewer fragments, and if there is one at all, greedy finds one. */
  lemma GreedyIsFewest(parts: seq<Bytes>, s: Bytes, budget: int)
    requires budget >= 0 && ValidUtf8(s) && Split(parts, s, budget)
    ensures Greedy(s, budget).Some? && |Greedy(s, budget).value| <= |parts|
  {
    assert [] + s == s;
    GreedyStaysAhead(parts, [], s, budget);
  }

  // ---------------------------------------------------------------------------------------------
  // Sizes

  function FixedSize(): nat {
    |Ascii("{\"id\":")| + |Ascii(",\"type\":")| + |Ascii(",\"block_id\":")| + |Ascii(",\"seq\":")|
    + |Ascii(",\"total\":")| + |Ascii(",\"data\":")| + |Ascii("}")|
  }

  lemma EncodedSize(f: FrameBlock)
    ensures |Encode(f)| == FixedSize() + |Quote(f.id)| + |Quote(f.frameType)| + |Quote(f.blockId)|
                         + |JsonInt(f.seqNo)| + |JsonInt(f.total)| + |Quote(f.data)|
  {
  }

  /** With numbers no larger than the prototype's and data within the budget, a frame is within the limit. */
  lemma FrameWithinLimit(f: FrameBlock, blockId: Bytes, length: nat, maxBytes: int)
    requires |f.id| == 32 && Plain(f.id) && f.frameType == FRAME_TYPE && f.blockId == blockId
    requires 0 <= f.seqNo <= length && 0 <= f.total <= length
    requires Fits(f.data, Budget(blockId, length, maxBytes))
    ensures |Encode(f)| <= maxBytes
  {
    var prototype := Prototype(blockId, length);
    PlainIsUnescaped(f.id);
    PlainIsUnescaped(prototype.id);
    EscapedSizeIsLength(f.data);
    DecimalGrows(f.seqNo, length);
    DecimalGrows(f.total, length);
    EncodedSize(f);
    EncodedSize(prototype);
  }

  /**
   * The budget leaves out nothing and reserves nothing but digits: a frame of this form is within the limit exactly
   * when its data is within the budget and the digits its numbers do not use.
   */
  lemma LimitExactly(f: FrameBlock, blockId: Bytes, length: nat, maxBytes: int)
    requires |f.id| == 32 && Plain(f.id) && f.frameType == FRAME_TYPE && f.blockId == blockId
    ensures |Encode(f)| <= maxBytes <==>
      EscapedSize(f.data) <= Budget(blockId, length, maxBytes)
                             + 2 * |Decimal(length)| - |JsonInt(f.seqNo)| - |JsonInt(f.total)|
  {
    var prototype := Prototype(blockId, length);
    PlainIsUnescaped(f.id);
    PlainIsUnescaped(prototype.id);
    EscapedSizeIsLength(f.data);
    EncodedSize(f);
    EncodedSize(prototype);
  }

  /** Framing refuses exactly what is no block, and a limit that an empty frame already reaches. */
  lemma FramingRefusesExactly(reader: Reader, random: nat -> Nonce, block: Bytes, maxBytes: int)
    ensures
      var framing := FrameSpec(reader, random, block, maxBytes);
      && (framing.BadBlock? <==> block == [] || !ValidUtf8(block) || reader(block).None?)
      && (framing.NoRoomForEnvelope? <==>
        && block != [] && ValidUtf8(block) && reader(block).Some?
        && maxBytes <= |Encode(Prototype(reader(block).value, |block|))|)
  {
  }

  /** Every frame of a block, with its final numbers and escaped data, encodes to at most maxBytes. */
  lemma FramesWithinLimit(reader: Reader, random: nat -> Nonce, block: Bytes, maxBytes: int)
    requires FrameSpec(reader, random, block, maxBytes).Framed?
    ensures
      var frames := FrameSpec(reader, random, block, maxBytes).frames;
      forall k :: 0 <= k < |frames| ==> |Encode(frames[k])| <= maxBytes
  {
    var frames := FrameSpec(reader, random, block, maxBytes).frames;
    var blockId := BlockIdentity(reader, block).value;
    var budget := Budget(blockId, |block|, maxBytes);
    GreedySplits(block, budget);
    var parts := Greedy(block, budget).value;
    forall k | 0 <= k < |frames| ensures |Encode(frames[k])| <= maxBytes {
      assert frames[k] == FrameAt(random, blockId, parts, k);
      FrameWithinLimit(frames[k], blockId, |block|, maxBytes);
    }
  }

  /**
   * Past the envelope, framing fails exactly when some character cannot fit, and otherwise uses the fewest frames
   * possible.
   */
  lemma FramingIsBestPossible(reader: Reader, random: nat -> Nonce, block: Bytes, maxBytes: int)
    requires BlockIdentity(reader, block).Some?
    ensures
      var budget := Budget(BlockIdentity(reader, block).value, |block|, maxBytes);
      var framing := FrameSpec(reader, random, block, maxBytes);
      budget > 0 ==>
        && (framing.NoRoomForCharacter? <==> HasOversizedRune(block, budget))
        && (framing.NoRoomForCharacter? || framing.Framed?)
        && forall parts :: Split(parts, block, budget) ==> framing.Framed? && |framing.frames| <= |parts|
  {
    var budget := Budget(BlockIdentity(reader, block).value, |block|, maxBytes);
    if budget > 0 {
      GreedyFailsExactly(block, budget);
      forall parts | Split(parts, block, budget)
        ensures Greedy(block, budget).Some? && |Greedy(block, budget).value| <= |parts|
      {
        GreedyIsFewest(parts, block, budget);
      }
    }
  }

  // ---------------------------------------------------------------------------------------------
  // Reassembly

  function Numbers(frames: seq<FrameBlock>): (r: seq<int>)
    ensures |r| == |frames|
  {
    seq(|frames|, i requires 0 <= i < |frames| => frames[i].seqNo)
  }

  /** The positions the frames of a group claim. */
  function Positions(frames: seq<FrameBlock>): set<int> {
    set n | n in Numbers(frames)
  }

  predicate Occupied(frames: seq<FrameBlock>, k: int) {
    exists i :: 0 <= i < |frames| && frames[i].seqNo == k
  }

  /** The numbers 0..n-1. */
  function Below(n: nat): (r: set<int>)
    ensures |r| == n
    ensures forall k :: k in r <==> 0 <= k < n
  {
    if n == 0 then {} else Below(n - 1) + {n - 1}
  }

  lemma {:induction false} DistinctCount(ns: seq<int>)
    requires forall i, j :: 0 <= i < j < |ns| ==> ns[i] != ns[j]
    ensures |set n | n in ns| == |ns|
  {
    if ns != [] {
      var init, last := ns[..|ns| - 1], ns[|ns| - 1];
      DistinctCount(init);
      assert ns == init + [last];
      assert (set n | n in ns) == (set n | n in init) + {last};
    }
  }

  lemma SameSizeSubset(a: set<int>, b: set<int>)
    requires a <= b && |a| == |b|
    ensures a == b
  {
    assert b == a + (b - a);
    assert |b| == |a| + |b - a|;
  }

  /** Pigeonhole: n frames at distinct positions below n are at all of them. */
  lemma PositionsAreAll(frames: seq<FrameBlock>)
    requires WellFormedGroup(frames)
    ensures Positions(frames) == Below(|frames|)
    ensures forall k :: 0 <= k < |frames| ==> Occupied(frames, k)
  {
    var ns := Numbers(frames);
    forall k | k in Positions(frames) ensures k in Below(|frames|) {
      var i :| 0 <= i < |ns| && ns[i] == k;
      assert WellFormedFrame(frames[i], frames[0].blockId, |frames|);
    }
    DistinctCount(ns);
    SameSizeSubset(Positions(frames), Below(|frames|));
    forall k | 0 <= k < |frames| ensures Occupied(frames, k) {
      assert k in Positions(frames);
      var i :| 0 <= i < |ns| && ns[i] == k;
      assert frames[i].seqNo == k;
    }
  }

  /** What acceptance means: positions 0..n-1, each once, and the data joined in that order. */
  lemma AcceptedGroups(reader: Reader, frames: seq<FrameBlock>)
    requires UnframeSpec(reader, frames).Some?
    ensures frames != [] && Positions(frames) == Below(|frames|)
    ensures forall i, j :: 0 <= i < j < |frames| ==> frames[i].seqNo != frames[j].seqNo && frames[i].id != frames[j].id
    ensures forall i :: 0 <= i < |frames| ==>
      && frames[i].blockId == frames[0].blockId && 0 <= frames[i].seqNo < |frames|
      && Ordered(frames, |frames|)[frames[i].seqNo] == frames[i].data
    ensures UnframeSpec(reader, frames).value == Concat(Ordered(frames, |frames|))
    ensures BlockIdentity(reader, UnframeSpec(reader, frames).value) == Some(frames[0].blockId)
  {
    PositionsAreAll(frames);
    forall i | 0 <= i < |frames|
      ensures WellFormedFrame(frames[i], frames[0].blockId, |frames|)
      ensures DataAt(frames, frames[i].seqNo) == frames[i].data
    {
      DataAtIs(frames, i);
    }
  }

  /** An element occurring twice, in terms of places and in terms of counts. */
  lemma {:induction false} OccursTwice(s: seq<FrameBlock>, x: FrameBlock)
    ensures multiset(s)[x] >= 2 <==> exists i, j :: 0 <= i < j < |s| && s[i] == x && s[j] == x
  {
    if s != [] {
      var init, last := s[..|s| - 1], s[|s| - 1];
      assert s == init + [last];
      OccursTwice(init, x);
      if multiset(s)[x] >= 2 {
        if last == x {
          assert x in multiset(init);
          var i :| 0 <= i < |init| && init[i] == x;
          assert s[i] == x && s[|s| - 1] == x;
        } else {
          var i, j :| 0 <= i < j < |init| && init[i] == x && init[j] == x;
          assert s[i] == x && s[j] == x;
        }
      }
      if i, j :| 0 <= i < j < |s| && s[i] == x && s[j] == x {
        assert init[i] == x;
        if j < |init| {
          assert init[j] == x;
        }
        assert multiset(init)[x] >= 1;
      }
    }
  }

  lemma SameElements(a: seq<FrameBlock>, b: seq<FrameBlock>)
    requires multiset(a) == multiset(b)
    ensures |a| == |b|
    ensures forall i :: 0 <= i < |b| ==> b[i] in a
  {
    assert |a| == |multiset(a)| == |multiset(b)| == |b|;
    forall i | 0 <= i < |b| ensures b[i] in a {
      assert b[i] in multiset(b);
    }
  }

  /** Two frames of a permuted group that share an id or a position would do so in the original. */
  lemma DistinctnessIsUnordered(a: seq<FrameBlock>, b: seq<FrameBlock>, i: nat, j: nat)
    requires multiset(a) == multiset(b) && WellFormedGroup(a) && i < j < |b|
    ensures b[i].id != b[j].id && b[i].seqNo != b[j].seqNo
  {
    SameElements(a, b);
    OnceEach(a, b[i]);
    OccursTwice(b, b[i]);
    var k :| 0 <= k < |a| && a[k] == b[i];
    var l :| 0 <= l < |a| && a[l] == b[j];
    assert k != l;
  }

  lemma OnceEach(a: seq<FrameBlock>, x: FrameBlock)
    requires WellFormedGroup(a)
    ensures multiset(a)[x] <= 1
  {
    OccursTwice(a, x);
  }

  lemma PermutedGroup(a: seq<FrameBlock>, b: seq<FrameBlock>)
    requires multiset(a) == multiset(b) && WellFormedGroup(a)
    ensures WellFormedGroup(b) && b[0].blockId == a[0].blockId && |a| == |b|
  {
    SameElements(a, b);
    forall i | 0 <= i < |b| ensures WellFormedFrame(b[i], a[0].blockId, |b|) {
      var k :| 0 <= k < |a| && a[k] == b[i];
      assert WellFormedFrame(a[k], a[0].blockId, |a|);
    }
    forall i, j | 0 <= i < j < |b| ensures b[i].id != b[j].id && b[i].seqNo != b[j].seqNo {
      DistinctnessIsUnordered(a, b, i, j);
    }
  }

  lemma PermutedData(a: seq<FrameBlock>, b: seq<FrameBlock>, k: int)
    requires multiset(a) == multiset(b) && WellFormedGroup(a) && WellFormedGroup(b) && Occupied(b, k)
    ensures DataAt(a, k) == DataAt(b, k)
  {
    SameElements(a, b);
    var i :| 0 <= i < |b| && b[i].seqNo == k;
    var j :| 0 <= j < |a| && a[j] == b[i];
    DataAtIs(b, i);
    DataAtIs(a, j);
  }

  lemma GroupIsUnordered(a: seq<FrameBlock>, b: seq<FrameBlock>)
    requires multiset(a) == multiset(b) && WellFormedGroup(a)
    ensures WellFormedGroup(b) && b[0].blockId == a[0].blockId && Assemble(b) == Assemble(a)
  {
    hide WellFormedGroup, DataAt, Concat;
    PermutedGroup(a, b);
    PositionsAreAll(b);
    forall k | 0 <= k < |a| ensures DataAt(a, k) == DataAt(b, k) {
      PermutedData(a, b, k);
    }
    assert Ordered(a, |a|) == Ordered(b, |b|);
  }

  /** Reassembly does not depend on the order frames arrive in: neither acceptance nor result. */
  lemma UnframeIsUnordered(reader: Reader, a: seq<FrameBlock>, b: seq<FrameBlock>)
    requires multiset(a) == multiset(b)
    ensures UnframeSpec(reader, a) == UnframeSpec(reader, b)
  {
    if WellFormedGroup(a) {
      GroupIsUnordered(a, b);
    } else if WellFormedGroup(b) {
      GroupIsUnordered(b, a);
    }
  }

  function Datas(frames: seq<FrameBlock>): (r: seq<Bytes>)
    ensures |r| == |frames|
  {
    seq(|frames|, i requires 0 <= i < |frames| => frames[i].data)
  }

  /** A complete group in position order. */
  predicate InOrder(g: seq<FrameBlock>, blockId: Bytes) {
    && (forall k :: 0 <= k < |g| ==>
      && g[k].frameType == FRAME_TYPE && g[k].blockId == blockId && g[k].seqNo == k && g[k].total == |g|
      && g[k].id != [] && g[k].data != [] && ValidUtf8(g[k].data))
    && forall j, k :: 0 <= j < k < |g| ==> g[j].id != g[k].id
  }

  ghost function FrameIn(frames: seq<FrameBlock>, k: int): (f: FrameBlock)
    requires Occupied(frames, k)
    ensures f in frames && f.seqNo == k
  {
    var i :| 0 <= i < |frames| && frames[i].seqNo == k;
    frames[i]
  }

  lemma OnlyFrameIn(frames: seq<FrameBlock>, i: nat)
    requires WellFormedGroup(frames) && i < |frames| && Occupied(frames, frames[i].seqNo)
    ensures FrameIn(frames, frames[i].seqNo) == frames[i]
  {
    var j :| 0 <= j < |frames| && frames[j] == FrameIn(frames, frames[i].seqNo);
  }

  /** A complete group can be put in position order. */
  lemma Sorted(frames: seq<FrameBlock>) returns (g: seq<FrameBlock>)
    requires WellFormedGroup(frames)
    ensures multiset(g) == multiset(frames) && g != [] && InOrder(g, g[0].blockId)
  {
    hide InOrder, Positions;
    PositionsAreAll(frames);
    g := seq(|frames|, k requires 0 <= k < |frames| && Occupied(frames, k) => FrameIn(frames, k));
    forall k | 0 <= k < |g| ensures g[k] in frames && g[k].seqNo == k {
    }
    forall i | 0 <= i < |frames| ensures frames[i] in g {
      OnlyFrameIn(frames, i);
      assert WellFormedFrame(frames[i], frames[0].blockId, |frames|);
      assert g[frames[i].seqNo] == frames[i];
    }
    SortedIsGroup(frames, g);
    SameGroup(frames, g);
  }

  lemma SameGroup(a: seq<FrameBlock>, b: seq<FrameBlock>)
    requires WellFormedGroup(a) && WellFormedGroup(b)
    requires forall i :: 0 <= i < |a| ==> a[i] in b
    requires forall i :: 0 <= i < |b| ==> b[i] in a
    ensures multiset(a) == multiset(b)
  {
    hide WellFormedGroup;
    forall x ensures multiset(a)[x] == multiset(b)[x] {
      OnceEach(a, x);
      OnceEach(b, x);
      assert x in multiset(a) <==> x in a;
      assert x in multiset(b) <==> x in b;
    }
  }

  lemma SortedIsGroup(frames: seq<FrameBlock>, g: seq<FrameBlock>)
    requires WellFormedGroup(frames) && |g| == |frames|
    requires forall k :: 0 <= k < |g| ==> g[k] in frames && g[k].seqNo == k
    ensures WellFormedGroup(g) && InOrder(g, g[0].blockId)
  {
    forall k | 0 <= k < |g| ensures WellFormedFrame(g[k], frames[0].blockId, |g|) {
      var i :| 0 <= i < |frames| && frames[i] == g[k];
      assert WellFormedFrame(frames[i], frames[0].blockId, |frames|);
    }
    forall j, k | 0 <= j < k < |g| ensures g[j].id != g[k].id && g[j].seqNo != g[k].seqNo {
      var a :| 0 <= a < |frames| && frames[a] == g[j];
      var b :| 0 <= b < |frames| && frames[b] == g[k];
      assert a != b;
    }
  }

  lemma InOrderGroup(g: seq<FrameBlock>)
    requires g != [] && InOrder(g, g[0].blockId)
    ensures WellFormedGroup(g) && Assemble(g) == Concat(Datas(g))
  {
    forall k | 0 <= k < |g| ensures DataAt(g, k) == g[k].data {
      DataAtIs(g, k);
    }
    assert Ordered(g, |g|) == Datas(g);
  }

  /** The frames, in some order, are a complete group whose joined data reads back as the group's block. */
  ghost predicate Restores(reader: Reader, frames: seq<FrameBlock>, g: seq<FrameBlock>, block: Bytes) {
    && multiset(g) == multiset(frames) && g != [] && InOrder(g, g[0].blockId)
    && block == Concat(Datas(g)) && ValidUtf8(block) && block != [] && reader(block) == Some(g[0].blockId)
  }

  /** Reassembly gives a block if and only if the frames can be put in order so that they restore it. */
  lemma UnframeExactly(reader: Reader, frames: seq<FrameBlock>, block: Bytes)
    ensures UnframeSpec(reader, frames) == Some(block) <==> exists g :: Restores(reader, frames, g, block)
  {
    hide WellFormedGroup, InOrder, Assemble, ValidUtf8;
    if UnframeSpec(reader, frames) == Some(block) {
      var g := Sorted(frames);
      UnframeIsUnordered(reader, frames, g);
      InOrderGroup(g);
      assert Restores(reader, frames, g, block);
    }
    if g :| Restores(reader, frames, g, block) {
      InOrderGroup(g);
      UnframeIsUnordered(reader, frames, g);
    }
  }

  /** Frames drawn with distinct random identities. */
  ghost predicate DistinctNonces(random: nat -> Nonce, n: nat) {
    forall i: nat, j: nat :: i < j < n ==> random(i) != random(j)
  }

  lemma FramedGroup(reader: Reader, random: nat -> Nonce, block: Bytes, maxBytes: int)
    requires FrameSpec(reader, random, block, maxBytes).Framed?
    requires DistinctNonces(random, |FrameSpec(reader, random, block, maxBytes).frames|)
    ensures
      var frames := FrameSpec(reader, random, block, maxBytes).frames;
      WellFormedGroup(frames) && Assemble(frames) == block && BlockIdentity(reader, block) == Some(frames[0].blockId)
  {
    var frames := FrameSpec(reader, random, block, maxBytes).frames;
    var blockId := BlockIdentity(reader, block).value;
    var budget := Budget(blockId, |block|, maxBytes);
    GreedySplits(block, budget);
    var parts := Greedy(block, budget).value;
    forall k | 0 <= k < |frames| ensures frames[k] == FrameAt(random, blockId, parts, k) {
    }
    forall i, j | 0 <= i < j < |frames| ensures frames[i].id != frames[j].id {
      if Hex(random(i)) == Hex(random(j)) {
        HexIsInjective(random(i), random(j));
      }
    }
    forall k | 0 <= k < |frames| ensures DataAt(frames, k) == parts[k] {
      DataAtIs(frames, k);
    }
    assert Ordered(frames, |frames|) == parts;
  }

  /**
   * Framing then reassembling is the identity, for every block, every budget that suffices, and every order of the
   * frames.
   */
  lemma RoundTrip(reader: Reader, random: nat -> Nonce, block: Bytes, maxBytes: int, shuffled: seq<FrameBlock>)
    requires FrameSpec(reader, random, block, maxBytes).Framed?
    requires DistinctNonces(random, |FrameSpec(reader, random, block, maxBytes).frames|)
    requires multiset(shuffled) == multiset(FrameSpec(reader, random, block, maxBytes).frames)
    ensures UnframeSpec(reader, shuffled) == Some(block)
  {
    FramedGroup(reader, random, block, maxBytes);
    UnframeIsUnordered(reader, FrameSpec(reader, random, block, maxBytes).frames, shuffled);
  }
}
