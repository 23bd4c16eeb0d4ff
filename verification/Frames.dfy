/**
 * Frames: what a group must satisfy, what splitting should produce, and the sizes of both (sdks/go/storage/frame.go).
 */
module Frames {
  import opened Json
  import opened Utf8
  import opened JsonText

  const FRAME_TYPE: Bytes := Ascii("frame")

  /** A storage-only fragment of a serialized block. */
  datatype FrameBlock = FrameBlock(id: Bytes, frameType: Bytes, blockId: Bytes, seqNo: int, total: int, data: Bytes)

  /**
   * Reading the identity of a serialized block: an id for text that is a complete inline block, none for anything else.
   */
  type Reader = Bytes -> Option<Bytes>

  /** The reader is only asked about valid, non-empty UTF-8. */
  function BlockIdentity(reader: Reader, raw: Bytes): Option<Bytes> {
    if raw == [] || !ValidUtf8(raw) then None else reader(raw)
  }

  function JsonInt(n: int): Bytes {
    if n < 0 then [0x2D] + Decimal(-n) else Decimal(n)
  }

  /** The JSON encoding of a frame. */
  function Encode(f: FrameBlock): Bytes {
    Ascii("{\"id\":") + Quote(f.id)
    + Ascii(",\"type\":") + Quote(f.frameType)
    + Ascii(",\"block_id\":") + Quote(f.blockId)
    + Ascii(",\"seq\":") + JsonInt(f.seqNo)
    + Ascii(",\"total\":") + JsonInt(f.total)
    + Ascii(",\"data\":") + Quote(f.data)
    + Ascii("}")
  }

  /** An empty frame of the largest numbers a block of this length can need. */
  function Prototype(blockId: Bytes, length: nat): FrameBlock {
    FrameBlock(seq(32, _ => 0x30), FRAME_TYPE, blockId, length, length, [])
  }

  function Budget(blockId: Bytes, length: nat, maxBytes: int): int {
    maxBytes - |Encode(Prototype(blockId, length))|
  }

  predicate Fits(fragment: Bytes, budget: int) {
    EscapedSize(fragment) <= budget
  }

  /** How far characters can be taken from the front, one by one, before their escaped size exceeds the budget. */
  function LongestFit(s: Bytes, budget: int): (take: nat)
    requires ValidUtf8(s)
    ensures take <= |s|
    decreases |s|
  {
    if s == [] then 0
    else
      var n := RuneLen(s);
      if budget < RuneCost(s) then 0 else n + LongestFit(s[n..], budget - RuneCost(s))
  }

  /** Fragments taken greedily from the front; none when a character does not fit on its own. */
  function Greedy(s: Bytes, budget: int): (r: Option<seq<Bytes>>)
    requires ValidUtf8(s)
    decreases |s|
  {
    if s == [] then Some([])
    else
      var take := LongestFit(s, budget);
      if take == 0 then None
      else
        LongestFitIsBoundary(s, budget);
        BoundaryCuts(s, take);
        match Greedy(s[take..], budget)
        case None => None
        case Some(rest) => Some([s[..take]] + rest)
  }

  /** A boundary past the first character, seen from behind that character. */
  lemma BoundaryPastFirstRune(s: Bytes, j: nat)
    requires RuneLen(s) <= j <= |s|
    requires ValidUtf8(s) && s != []
    ensures Boundary(s, j) <==> Boundary(s[RuneLen(s)..], j - RuneLen(s))
  {
    hide RuneLen, ValidUtf8;
    var n := RuneLen(s);
    FirstRuneIsWhole(s);
    FirstByte(s[n..]);
    assert j < |s| ==> s[j] == s[n..][j - n];
    assert n < |s| ==> s[n] == s[n..][0];
  }

  /** Valid text starts with a byte that starts a character. */
  lemma FirstByte(s: Bytes)
    requires ValidUtf8(s)
    ensures s != [] ==> RuneStart(s[0])
  {
  }

  lemma EscapedSizeStep(s: Bytes)
    requires RuneLen(s) > 0
    ensures EscapedSize(s) == RuneCost(s) + EscapedSize(s[RuneLen(s)..])
  {
    hide RuneCost;
  }

  lemma PastFirstRune(s: Bytes, j: nat)
    requires ValidUtf8(s) && s != [] && RuneLen(s) <= j <= |s|
    ensures Boundary(s, j) <==> Boundary(s[RuneLen(s)..], j - RuneLen(s))
    ensures EscapedSize(s[..j]) == RuneCost(s) + EscapedSize(s[RuneLen(s)..][..j - RuneLen(s)])
  {
    hide RuneLen, RuneCost, ValidUtf8, Boundary, EscapedSize;
    FirstRuneIsWhole(s);
    BoundaryPastFirstRune(s, j);
    var n := RuneLen(s);
    assert s[..j][..n] == s[..n];
    RuneCostIsLocal(s, s[..j]);
    EscapedSizeStep(s[..j]);
    assert s[..j][n..] == s[n..][..j - n];
  }

  lemma FirstRuneWithin(s: Bytes, j: nat)
    requires ValidUtf8(s) && s != [] && Boundary(s, j) && j > 0
    ensures RuneLen(s) <= j
  {
  }

  lemma {:induction false} LongestFitIsBoundary(s: Bytes, budget: int)
    requires ValidUtf8(s)
    ensures Boundary(s, LongestFit(s, budget))
    ensures budget >= 0 ==> Fits(s[..LongestFit(s, budget)], budget)
    decreases |s|
  {
    hide RuneLen, RuneCost, RuneStart;
    if s != [] && RuneCost(s) <= budget {
      var n, cost := RuneLen(s), RuneCost(s);
      var rest := s[n..];
      var take := LongestFit(rest, budget - cost);
      LongestFitIsBoundary(rest, budget - cost);
      PastFirstRune(s, n + take);
      assert LongestFit(s, budget) == n + take;
    }
  }

  /** No boundary beyond the longest fit is within budget. */
  lemma {:induction false} LongestFitIsLongest(s: Bytes, budget: int, j: nat)
    requires ValidUtf8(s) && Boundary(s, j) && Fits(s[..j], budget)
    ensures j <= LongestFit(s, budget)
    decreases |s|
  {
    hide RuneLen, RuneCost, RuneStart;
    if s != [] && j > 0 {
      FirstRuneWithin(s, j);
      PastFirstRune(s, j);
      var n, cost := RuneLen(s), RuneCost(s);
      var rest := s[n..];
      LongestFitIsLongest(rest, budget - cost, j - n);
      assert LongestFit(s, budget) == n + LongestFit(rest, budget - cost);
    }
  }

  function Concat(parts: seq<Bytes>): (r: Bytes) {
    if parts == [] then [] else parts[0] + Concat(parts[1..])
  }

  /** The random identities of frames, in the order they are drawn: sixteen bytes each. */
  type Nonce = b: Bytes | |b| == 16 witness seq(16, _ => 0)

  function FrameAt(random: nat -> Nonce, blockId: Bytes, parts: seq<Bytes>, k: nat): FrameBlock
    requires k < |parts|
  {
    FrameBlock(Hex(random(k)), FRAME_TYPE, blockId, k, |parts|, parts[k])
  }

  datatype Framing = Framed(frames: seq<FrameBlock>) | BadBlock | NoRoomForEnvelope | NoRoomForCharacter

  /** What framing a block gives. */
  function FrameSpec(reader: Reader, random: nat -> Nonce, block: Bytes, maxBytes: int): Framing {
    match BlockIdentity(reader, block)
    case None => BadBlock
    case Some(id) =>
      var budget := Budget(id, |block|, maxBytes);
      if budget <= 0 then NoRoomForEnvelope
      else match Greedy(block, budget)
        case None => NoRoomForCharacter
        case Some(parts) => Framed(seq(|parts|, k requires 0 <= k < |parts| => FrameAt(random, id, parts, k)))
  }

  // ---------------------------------------------------------------------------------------------
  // Groups

  predicate WellFormedFrame(f: FrameBlock, blockId: Bytes, n: nat) {
    && f.frameType == FRAME_TYPE && f.id != [] && f.blockId == blockId
    && f.total == n && 0 <= f.seqNo < n
    && f.data != [] && ValidUtf8(f.data)
  }

  /** A complete group: every frame well-formed, no id and no position used twice. */
  predicate WellFormedGroup(frames: seq<FrameBlock>) {
    && frames != []
    && (forall i :: 0 <= i < |frames| ==> WellFormedFrame(frames[i], frames[0].blockId, |frames|))
    && (forall i, j :: 0 <= i < j < |frames| ==> frames[i].id != frames[j].id && frames[i].seqNo != frames[j].seqNo)
  }

  /** The data of the frame at position k, or nothing when no frame has it. */
  function DataAt(frames: seq<FrameBlock>, k: int): Bytes {
    if frames == [] then []
    else if frames[0].seqNo == k then frames[0].data
    else DataAt(frames[1..], k)
  }

  /** The fragments in position order. */
  function Ordered(frames: seq<FrameBlock>, n: nat): (r: seq<Bytes>) {
    seq(n, k requires 0 <= k < n => DataAt(frames, k))
  }

  function Assemble(frames: seq<FrameBlock>): Bytes {
    Concat(Ordered(frames, |frames|))
  }

  /** What reassembling a group gives: the joined data, if the group is complete and reads back as the same block. */
  function UnframeSpec(reader: Reader, frames: seq<FrameBlock>): Option<Bytes> {
    if WellFormedGroup(frames) && BlockIdentity(reader, Assemble(frames)) == Some(frames[0].blockId)
    then Some(Assemble(frames))
    else None
  }

  lemma {:induction false} DataAtIs(frames: seq<FrameBlock>, i: nat)
    requires i < |frames|
    requires forall a, b :: 0 <= a < b < |frames| ==> frames[a].seqNo != frames[b].seqNo
    ensures DataAt(frames, frames[i].seqNo) == frames[i].data
  {
    if i > 0 {
      assert frames[1..][i - 1] == frames[i];
      DataAtIs(frames[1..], i - 1);
    }
  }

}
