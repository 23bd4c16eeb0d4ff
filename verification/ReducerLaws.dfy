/** Laws of the reducer: failure atomicity, path reads and writes, and chunked appends. */
module ReducerLaws {
  import opened Json
  import opened Masks
  import opened Model
  import opened Reducer
  import opened ModelInvariants

  // ---------------------------------------------------------------------------------------------
  // Rejected events

  /** The rejected events that get as far as asking a snapshot for its missing block list. */
  predicate ReachesBlockList(e: Event) {
    && ValidEvent(e) && e.block.Some? && HasDot(e.mask)
    && match e.op
       case Set => ReadPath(e.block.value, PathOf(e.mask)).Some?
       case Append =>
         && !HasDot(AppendField(e.mask))
         && StringOf(e.block.value, "id") != "" && AppendField(e.mask) in e.block.value
       case _ => false
  }

  lemma MetaSetResidue(s: Fields, mask: string, source: Fields)
    requires HasRoot(mask, META_ROOT) && !SetByMask(s, mask, source).ok
    ensures SetByMask(s, mask, source).state == s
  {
    MaskedMetaSet(s, mask, source);
  }

  lemma BlockSetResidue(s: Fields, mask: string, source: Fields)
    requires HasRoot(mask, BLOCK_ROOT) && !SetByMask(s, mask, source).ok
    ensures HasDot(mask)
    ensures SetByMask(s, mask, source).state
         == if "blocks" !in s && ReadPath(source, PathOf(mask)).Some? then EnsureBlocks(s) else s
  {
    MaskedBlockSet(s, mask, source);
  }

  lemma AppendResidue(s: Fields, mask: string, block: Fields)
    requires HasRoot(mask, BLOCK_ROOT) && ValidFieldPatch(mask, block) && !AppendByMask(s, mask, block).ok
    ensures AppendByMask(s, mask, block).state
         == if "blocks" !in s && !HasDot(AppendField(mask)) && StringOf(block, "id") != "" && AppendField(mask) in block
            then EnsureBlocks(s) else s
  {
    assert AppendField(mask) == mask[6..];
    assert mask[6..] != "";
  }

  /**
   * A rejected event changes the snapshot exactly when the snapshot has no block list and the
   * event reaches it; the change is then an empty block list and nothing else.
   */
  lemma RejectionResidue(s: Fields, e: Event)
    requires !Apply(s, e).ok
    ensures Apply(s, e).state != s <==> "blocks" !in s && ReachesBlockList(e)
    ensures Apply(s, e).state == s || Apply(s, e).state == s["blocks" := Arr([])]
  {
    if ValidEvent(e) {
      match e.op {
        case Set =>
          if e.mask != "" {
            if e.block.Some? {
              BlockSetResidue(s, e.mask, e.block.value);
            } else {
              MetaSetResidue(s, e.mask, e.meta.value);
            }
          }
        case Append => AppendResidue(s, e.mask, e.block.value);
        case Error =>
          ErrorMaskRoot();
          MetaSetResidue(s, e.mask, e.meta.value);
        case _ =>
      }
    }
  }

  // ---------------------------------------------------------------------------------------------
  // Paths

  predicate Incomparable(p: Path, q: Path) {
    !(p <= q) && !(q <= p)
  }

  /** A write is read back exactly, whatever was on the way. */
  lemma {:induction false} WriteThenLookup(target: Fields, path: Path, value: Json)
    requires |path| >= 1
    ensures Lookup(Obj(WritePath(target, path, value)), path) == Some(value)
    decreases |path|
  {
    if |path| == 1 {
      assert Lookup(value, path[1..]) == Some(value);
    } else {
      var next := Get(target, path[0]);
      WriteThenLookup(if next.Obj? then next.fields else map[], path[1..], value);
    }
  }

  lemma PrefixTails(p: Path, q: Path)
    requires p != [] && q != [] && p[0] == q[0]
    ensures p <= q <==> p[1..] <= q[1..]
  {
    assert p == [p[0]] + p[1..] && q == [q[0]] + q[1..];
    assert p[1..] <= q[1..] ==> p == q[..|p|];
  }

  lemma IncomparableTails(p: Path, q: Path)
    requires Incomparable(p, q) && p[0] == q[0]
    ensures |p| > 1 && |q| > 1 && Incomparable(p[1..], q[1..])
  {
    PrefixTails(p, q);
    PrefixTails(q, p);
  }

  /** A write leaves strict lookup at every incomparable path as it was. */
  lemma {:induction false} WriteElsewhere(target: Fields, p: Path, value: Json, q: Path)
    requires Incomparable(p, q)
    ensures Lookup(Obj(WritePath(target, p, value)), q) == Lookup(Obj(target), q)
    decreases |p|
  {
    if p[0] != q[0] {
      WriteTouchesHead(target, p, value);
    } else {
      IncomparableTails(p, q);
      var next := Get(target, p[0]);
      WriteElsewhere(if next.Obj? then next.fields else map[], p[1..], value, q[1..]);
    }
  }

  /** What a write puts at its first segment depends on nothing but what was there. */
  function HeadValue(old_: Json, path: Path, value: Json): Json
    requires |path| >= 1
  {
    if |path| == 1 then value
    else Obj(WritePath(if old_.Obj? then old_.fields else map[], path[1..], value))
  }

  lemma WriteIsHeadUpdate(target: Fields, path: Path, value: Json)
    requires |path| >= 1
    ensures WritePath(target, path, value) == target[path[0] := HeadValue(Get(target, path[0]), path, value)]
  {
  }

  lemma DistinctHeadsCommute(target: Fields, p: Path, v: Json, q: Path, w: Json)
    requires |p| >= 1 && |q| >= 1 && p[0] != q[0]
    ensures WritePath(WritePath(target, p, v), q, w) == WritePath(WritePath(target, q, w), p, v)
  {
    var atP, atQ := HeadValue(Get(target, p[0]), p, v), HeadValue(Get(target, q[0]), q, w);
    WriteIsHeadUpdate(target, p, v);
    WriteIsHeadUpdate(target, q, w);
    WriteIsHeadUpdate(target[p[0] := atP], q, w);
    WriteIsHeadUpdate(target[q[0] := atQ], p, v);
    assert target[p[0] := atP][q[0] := atQ] == target[q[0] := atQ][p[0] := atP];
  }

  lemma SameHeadTwice(target: Fields, p: Path, v: Json, q: Path, w: Json)
    requires |p| >= 1 && |q| >= 1 && p[0] == q[0]
    ensures WritePath(WritePath(target, p, v), q, w)
         == target[p[0] := HeadValue(HeadValue(Get(target, p[0]), p, v), q, w)]
  {
    var first := HeadValue(Get(target, p[0]), p, v);
    WriteIsHeadUpdate(target, p, v);
    WriteIsHeadUpdate(target[p[0] := first], q, w);
    var second := HeadValue(first, q, w);
    assert target[p[0] := first][p[0] := second] == target[p[0] := second];
  }

  /** Writes at incomparable paths commute. */
  lemma {:induction false} WritesCommute(target: Fields, p: Path, v: Json, q: Path, w: Json)
    requires Incomparable(p, q)
    ensures WritePath(WritePath(target, p, v), q, w) == WritePath(WritePath(target, q, w), p, v)
    decreases |p|
  {
    if p[0] != q[0] {
      DistinctHeadsCommute(target, p, v, q, w);
    } else {
      IncomparableTails(p, q);
      var next := Get(target, p[0]);
      WritesCommute(if next.Obj? then next.fields else map[], p[1..], v, q[1..], w);
      SameHeadTwice(target, p, v, q, w);
      SameHeadTwice(target, q, w, p, v);
    }
  }

  /**
   * An accepted masked block set: the value read from the payload is found at the mask in the target block, and no
   * other block differs.
   */
  lemma MaskedSetIsReadBack(s: Fields, e: Event)
    requires ValidEvent(e) && e.op.Set? && e.mask != "" && e.block.Some? && BlocksOf(s).Some? && Apply(s, e).ok
    ensures
      var blocks := BlocksOf(s).value;
      var i := FindBlock(blocks, StringOf(e.block.value, "id"));
      var after := BlocksOf(Apply(s, e).state);
      && i < |blocks| && after.Some? && |after.value| == |blocks|
      && Lookup(Obj(after.value[i]), PathOf(e.mask)) == ReadPath(e.block.value, PathOf(e.mask))
      && (forall q :: Incomparable(PathOf(e.mask), q) ==> Lookup(Obj(after.value[i]), q) == Lookup(Obj(blocks[i]), q))
      && (forall k :: 0 <= k < |blocks| && k != i ==> after.value[k] == blocks[k])
  {
    SetBlockShape(s, e.mask, e.block.value);
    var blocks := BlocksOf(s).value;
    var i := FindBlock(blocks, StringOf(e.block.value, "id"));
    var path := PathOf(e.mask);
    var value := ReadPath(e.block.value, path).value;
    var updated := blocks[i := WritePath(blocks[i], path, value)];
    BlocksOfWithBlocks(s, updated);
    WriteThenLookup(blocks[i], path, value);
    forall q | Incomparable(path, q) ensures Lookup(Obj(updated[i]), q) == Lookup(Obj(blocks[i]), q) {
      WriteElsewhere(blocks[i], path, value, q);
    }
  }

  // ---------------------------------------------------------------------------------------------
  // Chunked appends

  predicate SameKind(pieces: seq<Json>) {
    || (forall i :: 0 <= i < |pieces| ==> pieces[i].Str?)
    || (forall i :: 0 <= i < |pieces| ==> pieces[i].Arr?)
  }

  function JoinedTexts(pieces: seq<Json>): (r: string)
    requires forall i :: 0 <= i < |pieces| ==> pieces[i].Str?
    decreases |pieces|
  {
    if pieces == [] then "" else JoinedTexts(pieces[..|pieces| - 1]) + pieces[|pieces| - 1].text
  }

  function JoinedItems(pieces: seq<Json>): (r: seq<Json>)
    requires forall i :: 0 <= i < |pieces| ==> pieces[i].Arr?
    decreases |pieces|
  {
    if pieces == [] then [] else JoinedItems(pieces[..|pieces| - 1]) + pieces[|pieces| - 1].items
  }

  /** The value the pieces were cut from: their texts, or their items, put side by side. */
  function Whole(pieces: seq<Json>): (r: Json)
    requires |pieces| >= 1 && SameKind(pieces)
    ensures r.Str? <==> pieces[0].Str?
    ensures r.Arr? <==> pieces[0].Arr?
  {
    if pieces[0].Str? then Str(JoinedTexts(pieces)) else Arr(JoinedItems(pieces))
  }

  lemma WholeOfOne(piece: Json)
    requires piece.Str? || piece.Arr?
    ensures Whole([piece]) == piece
  {
    assert [piece][..0] == [];
    if piece.Str? {
      assert JoinedTexts([piece]) == "" + piece.text == piece.text;
    } else {
      assert JoinedItems([piece]) == [] + piece.items == piece.items;
    }
  }

  /** The whole is what all pieces but the last make up, with the last appended. */
  lemma WholeOfMore(pieces: seq<Json>)
    requires |pieces| >= 2 && SameKind(pieces)
    ensures
      var init, last := pieces[..|pieces| - 1], pieces[|pieces| - 1];
      SameKind(init) && Joinable(Whole(init), last) && AppendValue(Whole(init), last) == Some(Whole(pieces))
  {
    assert pieces[..|pieces| - 1][0] == pieces[0];
  }

  /** An append to one field of one block: a payload carrying a piece of the field's value. */
  function PieceEvent(base: Fields, field: string, piece: Json, seqNo: nat): Event {
    Event(Append, seqNo, mask := "block." + field, block := Some(base[field := piece]))
  }

  predicate Missing(s: Fields, base: Fields) {
    && BlocksOf(s).Some?
    && FindBlock(BlocksOf(s).value, StringOf(base, "id")) == |BlocksOf(s).value|
  }

  /** The one piece that cannot come first: an empty type cannot create a block. */
  predicate CannotCreate(s: Fields, base: Fields, field: string, piece: Json) {
    Missing(s, base) && field == "type" && piece == Str("")
  }

  /** What one piece does, with the mask already taken apart. */
  function AppendPiece(s: Fields, base: Fields, field: string, piece: Json): Outcome {
    if field == "" || HasDot(field) || field in {"id", "ref"} || IsReference(base) || StringOf(base, "id") == ""
    then Reject(s)
    else match BlocksOf(s)
      case None => Reject(s)
      case Some(blocks) =>
        var i := FindBlock(blocks, StringOf(base, "id"));
        if i == |blocks| then
          if ValidBlock(base[field := piece]) then Accept(WithBlocks(s, blocks + [base[field := piece]]))
          else Reject(EnsureBlocks(s))
        else if IsReference(blocks[i]) then Reject(s)
        else match AppendValue(Get(blocks[i], field), piece)
          case None => Reject(s)
          case Some(value) => Accept(WithBlocks(s, blocks[i := blocks[i][field := value]]))
  }

  lemma UnappendableField(s: Fields, base: Fields, field: string, piece: Json, n: nat)
    requires field == "" || HasDot(field) || field in {"id", "ref"} || IsReference(base)
    ensures Apply(s, PieceEvent(base, field, piece, n)) == Reject(s)
  {
    var mask := "block." + field;
    assert mask[6..] == field;
    if field in {"id", "ref"} {
      AppendPath(mask);
    }
  }

  lemma UpsertMissing(s: Fields, block: Fields)
    requires BlocksOf(s).Some? && !IsReference(block)
    requires FindBlock(BlocksOf(s).value, StringOf(block, "id")) == |BlocksOf(s).value|
    ensures UpsertBlock(EnsureBlocks(s), block)
         == if ValidBlock(block) then Accept(WithBlocks(s, BlocksOf(s).value + [block])) else Reject(EnsureBlocks(s))
  {
    assert BlocksOf(EnsureBlocks(s)) == BlocksOf(s);
  }

  lemma AppendPieceByMask(s: Fields, base: Fields, field: string, piece: Json)
    requires field != "" && !HasDot(field) && field !in {"id", "ref"} && !IsReference(base)
    ensures AppendByMask(s, "block." + field, base[field := piece]) == AppendPiece(s, base, field, piece)
  {
    var mask := "block." + field;
    var block := base[field := piece];
    assert mask[6..] == field && AppendField(mask) == field;
    assert StringOf(block, "id") == StringOf(base, "id");
    if BlocksOf(s).Some? && FindBlock(BlocksOf(s).value, StringOf(base, "id")) == |BlocksOf(s).value| {
      UpsertMissing(s, block);
    }
  }

  lemma PieceIsValidEvent(base: Fields, field: string, piece: Json, n: nat)
    requires field != "" && !HasDot(field) && field !in {"id", "ref"} && !IsReference(base)
    ensures ValidEvent(PieceEvent(base, field, piece, n))
  {
    var mask := "block." + field;
    assert mask[6..] == field;
    AppendPath(mask);
  }

  lemma ApplyPiece(s: Fields, base: Fields, field: string, piece: Json, n: nat)
    ensures Apply(s, PieceEvent(base, field, piece, n)) == AppendPiece(s, base, field, piece)
  {
    if field == "" || HasDot(field) || field in {"id", "ref"} || IsReference(base) {
      UnappendableField(s, base, field, piece, n);
    } else {
      PieceIsValidEvent(base, field, piece, n);
      AppendPieceByMask(s, base, field, piece);
    }
  }

  lemma FindPrefix(blocks: seq<Fields>, updated: seq<Fields>, id: string, i: nat)
    requires i <= |blocks| && i < |updated|
    requires forall k :: 0 <= k < i ==> Get(blocks[k], "id") != Str(id) && updated[k] == blocks[k]
    requires Get(updated[i], "id") == Str(id)
    ensures FindBlock(updated, id) == i
  {
  }

  predicate Joinable(x: Json, y: Json) {
    (x.Str? && y.Str?) || (x.Arr? && y.Arr?)
  }

  lemma AppendValueAssociates(old_: Json, x: Json, y: Json)
    requires Joinable(x, y) && AppendValue(old_, x).Some?
    ensures AppendValue(x, y).Some? &&
      AppendValue(AppendValue(old_, x).value, y) == AppendValue(old_, AppendValue(x, y).value)
  {
    if old_.Str? {
      assert old_.text + x.text + y.text == old_.text + (x.text + y.text);
    } else if old_.Arr? {
      assert old_.items + x.items + y.items == old_.items + (x.items + y.items);
    }
  }

  /** The second piece lands in the block the first one left at position i. */
  lemma GrowPiece(s: Fields, base: Fields, field: string, updated: seq<Fields>, i: nat, y: Json)
    requires field != "" && !HasDot(field) && field !in {"id", "ref"} && !IsReference(base)
    requires StringOf(base, "id") != ""
    requires i < |updated| && FindBlock(updated, StringOf(base, "id")) == i && !IsReference(updated[i])
    requires AppendValue(Get(updated[i], field), y).Some?
    ensures AppendPiece(WithBlocks(s, updated), base, field, y)
         == Accept(WithBlocks(s, updated[i := updated[i][field := AppendValue(Get(updated[i], field), y).value]]))
  {
    BlocksOfWithBlocks(s, updated);
    var longer := updated[i := updated[i][field := AppendValue(Get(updated[i], field), y).value]];
    assert WithBlocks(WithBlocks(s, updated), longer) == WithBlocks(s, longer);
  }

  /** Two pieces in turn are the two pieces joined, on a block that is there. */
  lemma PiecesGrow(s: Fields, base: Fields, field: string, x: Json, y: Json)
    requires Joinable(x, y) && AppendPiece(s, base, field, x).ok && !Missing(s, base)
    ensures AppendPiece(AppendPiece(s, base, field, x).state, base, field, y)
         == AppendPiece(s, base, field, AppendValue(x, y).value)
    ensures AppendPiece(s, base, field, AppendValue(x, y).value).ok
  {
    var id := StringOf(base, "id");
    var blocks := BlocksOf(s).value;
    var i := FindBlock(blocks, id);
    AppendValueAssociates(Get(blocks[i], field), x, y);
    var value := AppendValue(Get(blocks[i], field), x).value;
    var joined := AppendValue(value, y).value;
    var updated := blocks[i := blocks[i][field := value]];
    BlocksOfWithBlocks(s, updated);
    FindPrefix(blocks, updated, id, i);
    GrowPiece(s, base, field, updated, i, y);
    assert Get(updated[i], field) == value;
    assert blocks[i][field := value][field := joined] == blocks[i][field := joined];
    assert updated[i := blocks[i][field := joined]] == blocks[i := blocks[i][field := joined]];
  }

  /** This piece makes the base payload a block of its own. */
  predicate Creatable(base: Fields, field: string, piece: Json) {
    && field != "" && !HasDot(field) && field !in {"id", "ref"} && !IsReference(base) && StringOf(base, "id") != ""
    && ValidBlock(base[field := piece])
  }

  lemma CreatesPiece(s: Fields, base: Fields, field: string, piece: Json)
    requires Missing(s, base)
    ensures AppendPiece(s, base, field, piece).ok <==> Creatable(base, field, piece)
    ensures Creatable(base, field, piece) ==>
      AppendPiece(s, base, field, piece) == Accept(WithBlocks(s, BlocksOf(s).value + [base[field := piece]]))
  {
    hide ValidBlock;
  }

  lemma CreatedStaysValid(base: Fields, field: string, x: Json, y: Json)
    requires Joinable(x, y) && Creatable(base, field, x)
    ensures Creatable(base, field, AppendValue(x, y).value)
  {
  }

  /** Two pieces in turn are the two pieces joined, when the first creates the block. */
  lemma PiecesCreate(s: Fields, base: Fields, field: string, x: Json, y: Json)
    requires Joinable(x, y) && AppendPiece(s, base, field, x).ok && Missing(s, base)
    ensures AppendPiece(AppendPiece(s, base, field, x).state, base, field, y)
         == AppendPiece(s, base, field, AppendValue(x, y).value)
    ensures AppendPiece(s, base, field, AppendValue(x, y).value).ok
  {
    var z := AppendValue(x, y).value;
    var blocks := BlocksOf(s).value;
    var updated := blocks + [base[field := x]];
    CreatesPiece(s, base, field, x);
    CreatesPiece(s, base, field, z);
    CreatedStaysValid(base, field, x, y);
    hide AppendPiece, ValidBlock;
    BlocksOfWithBlocks(s, updated);
    FindPrefix(blocks, updated, StringOf(base, "id"), |blocks|);
    GrowPiece(s, base, field, updated, |blocks|, y);
    assert base[field := x][field := z] == base[field := z];
    assert updated[|blocks| := base[field := z]] == blocks + [base[field := z]];
    assert Get(base[field := x], field) == x;
  }

  /** When the joined value is accepted, so is its first piece, unless it would create a block with an empty type. */
  lemma FirstPiece(s: Fields, base: Fields, field: string, x: Json, y: Json)
    requires Joinable(x, y) && AppendPiece(s, base, field, AppendValue(x, y).value).ok
    ensures AppendPiece(s, base, field, x).ok <==> !CannotCreate(s, base, field, x)
  {
    var z := AppendValue(x, y).value;
    if Missing(s, base) {
      assert ValidBlock(base[field := z]);
    }
  }

  /** The events of a chunked append, in order. */
  function PieceEvents(base: Fields, field: string, pieces: seq<Json>, seqNos: seq<nat>): (events: seq<Event>)
    requires |pieces| == |seqNos|
  {
    seq(|pieces|, i requires 0 <= i < |pieces| => PieceEvent(base, field, pieces[i], seqNos[i]))
  }

  lemma {:induction false} EmptyWhole(pieces: seq<Json>)
    requires |pieces| >= 1 && SameKind(pieces) && Whole(pieces) == Str("")
    ensures pieces[0] == Str("")
    decreases |pieces|
  {
    if |pieces| > 1 {
      WholeOfMore(pieces);
      EmptyWhole(pieces[..|pieces| - 1]);
    } else {
      WholeOfOne(pieces[0]);
      assert pieces == [pieces[0]];
    }
  }

  /** The run of the pieces against the whole value. */
  predicate ChunksAgree(s: Fields, base: Fields, field: string, first: Json, run: Outcome, whole: Outcome) {
    && (run.ok <==> whole.ok && !CannotCreate(s, base, field, first))
    && (run.ok ==> run.state == whole.state)
  }

  /** One more piece after an agreeing run. */
  lemma NextPiece(s: Fields, base: Fields, field: string, first: Json, run: Outcome, head: Json, last: Json)
    requires Joinable(head, last)
    requires head == Str("") ==> first == Str("")
    requires ChunksAgree(s, base, field, first, run, AppendPiece(s, base, field, head))
    ensures ChunksAgree(s, base, field, first,
                        if run.ok then AppendPiece(run.state, base, field, last) else run,
                        AppendPiece(s, base, field, AppendValue(head, last).value))
  {
    if run.ok {
      if Missing(s, base) {
        PiecesCreate(s, base, field, head, last);
      } else {
        PiecesGrow(s, base, field, head, last);
      }
    } else if AppendPiece(s, base, field, AppendValue(head, last).value).ok {
      FirstPiece(s, base, field, head, last);
    }
  }

  lemma OnePiece(s: Fields, base: Fields, field: string, piece: Json)
    ensures AppendPiece(s, base, field, piece).ok ==> !CannotCreate(s, base, field, piece)
  {
  }

  /**
   * Appending a value cut into any number of pieces equals appending it whole, on any snapshot and
   * also when the first piece creates the block; the pieces are accepted exactly when the whole is
   * and the first piece is not an empty type creating a block.
   */
  lemma {:induction false} ChunkedAppend(s: Fields, base: Fields, field: string, pieces: seq<Json>, seqNos: seq<nat>,
      n: nat)
    requires |pieces| == |seqNos| && |pieces| >= 1 && SameKind(pieces)
    ensures ChunksAgree(s, base, field, pieces[0],
                        ApplyAll(s, PieceEvents(base, field, pieces, seqNos)),
                        Apply(s, PieceEvent(base, field, Whole(pieces), n)))
    decreases |pieces|
  {
    hide Apply, AppendPiece, AppendValue, Whole;
    var events := PieceEvents(base, field, pieces, seqNos);
    var k := |pieces| - 1;
    var init, initNos, last := pieces[..k], seqNos[..k], pieces[k];
    assert events[..k] == PieceEvents(base, field, init, initNos);
    ApplyPiece(s, base, field, Whole(pieces), n);
    if k == 0 {
      assert ApplyAll(s, events[..0]) == Accept(s);
      assert pieces == [last];
      WholeOfOne(last);
      ApplyPiece(s, base, field, last, seqNos[0]);
      OnePiece(s, base, field, last);
    } else {
      WholeOfMore(pieces);
      assert init[0] == pieces[0];
      ChunkedAppend(s, base, field, init, initNos, n);
      ApplyPiece(s, base, field, Whole(init), n);
      if Whole(init) == Str("") {
        EmptyWhole(init);
      }
      var run := ApplyAll(s, events[..k]);
      ApplyPiece(run.state, base, field, last, seqNos[k]);
      NextPiece(s, base, field, pieces[0], run, Whole(init), last);
    }
  }

  /** A run of events that is accepted is accepted up to every point. */
  lemma {:induction false} AcceptedPrefix(s: Fields, events: seq<Event>, k: nat)
    requires k <= |events| && ApplyAll(s, events).ok
    ensures ApplyAll(s, events[..k]).ok
    decreases |events|
  {
    if k == |events| {
      assert events[..k] == events;
    } else {
      assert events[..|events| - 1][..k] == events[..k];
      AcceptedPrefix(s, events[..|events| - 1], k);
    }
  }
}
