/**
 * What every accepted event keeps: block identity always, full model validity under an exact condition on the event.
 */
module ModelInvariants {
  import opened Json
  import opened Masks
  import opened Model
  import opened Reducer

  predicate IdentifiedBlock(block: Fields, version: string) {
    && StringOf(block, "id") != ""
    && (IsReference(block) ==>
      block.Keys == {"id", "ref"} && StringOf(block, "ref") != "" && version == PROTOCOL_VERSION)
  }

  /** The identity half of a model: a list of uniquely identified blocks, references bare and only in 1.1. */
  predicate Identified(snapshot: Fields) {
    && Get(snapshot, "meta").Obj?
    && "blocks" in snapshot
    && BlocksOf(snapshot).Some?
    && (forall i :: 0 <= i < |BlocksOf(snapshot).value| ==>
      IdentifiedBlock(BlocksOf(snapshot).value[i], StringOf(snapshot, "version")))
    && DistinctIds(BlocksOf(snapshot).value)
  }

  function Ids(blocks: seq<Fields>): (ids: seq<string>) {
    seq(|blocks|, i requires 0 <= i < |blocks| => StringOf(blocks[i], "id"))
  }

  /** Block ids in order; none when there is no readable block list. */
  function IdsOf(snapshot: Fields): seq<string> {
    match BlocksOf(snapshot)
    case None => []
    case Some(blocks) => Ids(blocks)
  }

  /** Only metadata and blocks differ, and every block that was there is still there, at the same position. */
  predicate Extends(before: Fields, after: Fields) {
    && before - {"meta", "blocks"} == after - {"meta", "blocks"}
    && IdsOf(before) <= IdsOf(after)
  }

  lemma ValidModelIsIdentified(model: Fields)
    requires ValidModel(model)
    ensures Identified(model)
  {
    var blocks := BlocksOf(model).value;
    forall i | 0 <= i < |blocks| ensures IdentifiedBlock(blocks[i], StringOf(model, "version")) {
      var block := blocks[i];
      assert ValidBlock(block);
      if IsReference(block) {
        TwoKeys(block, "id", "ref");
      }
    }
  }

  lemma BlocksOfWithBlocks(snapshot: Fields, blocks: seq<Fields>)
    ensures BlocksOf(WithBlocks(snapshot, blocks)) == Some(blocks)
    ensures WithBlocks(snapshot, blocks) - {"blocks"} == snapshot - {"blocks"}
    ensures forall key :: key != "blocks" ==> Get(WithBlocks(snapshot, blocks), key) == Get(snapshot, key)
  {
    UnwrapWrap(blocks);
  }

  lemma OutsideUnchanged(before: Fields, after: Fields)
    requires before - {"meta", "blocks"} == after - {"meta", "blocks"}
    ensures forall key :: key !in {"meta", "blocks"} ==>
      (key in before <==> key in after) && Get(before, key) == Get(after, key)
  {
    forall key | key !in {"meta", "blocks"}
      ensures (key in before <==> key in after) && Get(before, key) == Get(after, key)
    {
      assert key in before <==> key in before - {"meta", "blocks"};
      assert key in after <==> key in after - {"meta", "blocks"};
    }
  }

  /** What a mask under a root addresses. */
  lemma MaskPath(mask: string, root: string)
    requires !HasDot(root) && HasRoot(mask, root)
    ensures HasDot(mask)
    ensures CutAtDot(mask) == Cut(root, mask[|root| + 1..]) && mask[|root| + 1..] != ""
    ensures Split(mask[|root| + 1..]) == PathOf(mask)
  {
    assert mask[|root|] == '.';
    MaskUnderRoot(mask, root);
  }

  /** A masked set under "meta", with the mask taken apart. */
  lemma MaskedMetaSet(s: Fields, mask: string, source: Fields)
    requires HasRoot(mask, META_ROOT)
    ensures HasDot(mask)
    ensures SetByMask(s, mask, source)
         == match ReadPath(source, PathOf(mask))
            case None => Reject(s)
            case Some(value) => Accept(SetMeta(s, PathOf(mask), value))
  {
    MaskPath(mask, META_ROOT);
  }

  /** A masked set under "block", with the mask taken apart. */
  lemma MaskedBlockSet(s: Fields, mask: string, source: Fields)
    requires HasRoot(mask, BLOCK_ROOT)
    ensures HasDot(mask)
    ensures SetByMask(s, mask, source)
         == match ReadPath(source, PathOf(mask))
            case None => Reject(s)
            case Some(value) => SetBlock(s, StringOf(source, "id"), PathOf(mask), value)
  {
    MaskPath(mask, BLOCK_ROOT);
  }

  lemma AppendPath(mask: string)
    requires HasRoot(mask, BLOCK_ROOT) && !HasDot(AppendField(mask))
    ensures HasDot(mask) && PathOf(mask) == [AppendField(mask)]
  {
    MaskPath(mask, BLOCK_ROOT);
    SplitJoin(AppendField(mask));
  }

  /** A write changes nothing at the top level except its first segment. */
  lemma WriteTouchesHead(target: Fields, path: Path, value: Json)
    requires |path| >= 1
    ensures WritePath(target, path, value).Keys == target.Keys + {path[0]}
    ensures forall key :: key != path[0] ==> Get(WritePath(target, path, value), key) == Get(target, key)
  {
  }

  /** The events that reach a block: the position changed, and the block put there. */
  predicate BlockUpdate(before: Fields, after: Fields, i: nat, block: Fields) {
    && BlocksOf(before).Some?
    && i <= |BlocksOf(before).value|
    && var blocks := BlocksOf(before).value;
    && after == WithBlocks(before, if i < |blocks| then blocks[i := block] else blocks + [block])
  }

  lemma UpdateKeepsIdentity(before: Fields, after: Fields, i: nat, block: Fields)
    requires Identified(before) && BlockUpdate(before, after, i, block)
    requires IdentifiedBlock(block, StringOf(before, "version"))
    requires i < |BlocksOf(before).value| ==> StringOf(block, "id") == StringOf(BlocksOf(before).value[i], "id")
    requires i == |BlocksOf(before).value| ==> StringOf(block, "id") !in Ids(BlocksOf(before).value)
    ensures Identified(after) && Extends(before, after)
  {
    var blocks := BlocksOf(before).value;
    var updated := if i < |blocks| then blocks[i := block] else blocks + [block];
    BlocksOfWithBlocks(before, updated);
    assert before - {"meta", "blocks"} == after - {"meta", "blocks"};
    if i == |blocks| {
      forall k | 0 <= k < |blocks| ensures StringOf(updated[k], "id") != StringOf(block, "id") {
        assert Ids(blocks)[k] == StringOf(blocks[k], "id");
      }
    }
    assert DistinctIds(updated);
    assert Ids(blocks) <= Ids(updated);
  }

  lemma MissingId(blocks: seq<Fields>, id: string)
    requires id != "" && FindBlock(blocks, id) == |blocks|
    ensures id !in Ids(blocks)
  {
    forall k | 0 <= k < |blocks| ensures Ids(blocks)[k] != id {
      assert Get(blocks[k], "id") != Str(id);
    }
  }

  lemma UpsertUpdates(s: Fields, block: Fields)
    requires Identified(s) && UpsertBlock(s, block).ok
    ensures Identified(UpsertBlock(s, block).state) && Extends(s, UpsertBlock(s, block).state)
  {
    var blocks := BlocksOf(s).value;
    var id := StringOf(block, "id");
    var i := FindBlock(blocks, id);
    if IsReference(block) {
      TwoKeys(block, "id", "ref");
    }
    if i == |blocks| {
      MissingId(blocks, id);
    }
    UpdateKeepsIdentity(s, UpsertBlock(s, block).state, i, block);
  }

  lemma AppendUpdates(s: Fields, e: Event)
    requires Identified(s) && ValidEvent(e) && e.op.Append? && Apply(s, e).ok
    ensures Identified(Apply(s, e).state) && Extends(s, Apply(s, e).state)
  {
    var block := e.block.value;
    var field := AppendField(e.mask);
    AppendPath(e.mask);
    var blocks := BlocksOf(s).value;
    var i := FindBlock(blocks, StringOf(block, "id"));
    if i == |blocks| {
      UpsertUpdates(s, block);
    } else {
      var value := AppendValue(Get(blocks[i], field), block[field]).value;
      UpdateKeepsIdentity(s, Apply(s, e).state, i, blocks[i][field := value]);
    }
  }

  /** The one way a masked block set is accepted. */
  lemma SetBlockShape(s: Fields, mask: string, source: Fields)
    requires BlocksOf(s).Some? && HasRoot(mask, BLOCK_ROOT) && SetByMask(s, mask, source).ok
    ensures HasDot(mask) && ReadPath(source, PathOf(mask)).Some?
    ensures
      var blocks := BlocksOf(s).value;
      var i := FindBlock(blocks, StringOf(source, "id"));
      var value := ReadPath(source, PathOf(mask)).value;
      && i < |blocks| && !IsReference(blocks[i])
      && SetByMask(s, mask, source).state == WithBlocks(s, blocks[i := WritePath(blocks[i], PathOf(mask), value)])
  {
    MaskedBlockSet(s, mask, source);
  }

  lemma PatchKeepsBlock(block: Fields, path: Path, value: Json, version: string)
    requires |path| >= 1 && path[0] !in {"id", "ref"}
    requires IdentifiedBlock(block, version) && !IsReference(block)
    ensures IdentifiedBlock(WritePath(block, path, value), version)
    ensures StringOf(WritePath(block, path, value), "id") == StringOf(block, "id")
  {
    WriteTouchesHead(block, path, value);
  }

  lemma SetBlockUpdates(s: Fields, mask: string, source: Fields)
    requires Identified(s) && HasRoot(mask, BLOCK_ROOT) && ValidFieldPatch(mask, source)
    requires SetByMask(s, mask, source).ok
    ensures Identified(SetByMask(s, mask, source).state) && Extends(s, SetByMask(s, mask, source).state)
  {
    SetBlockShape(s, mask, source);
    var blocks := BlocksOf(s).value;
    var i := FindBlock(blocks, StringOf(source, "id"));
    var value := ReadPath(source, PathOf(mask)).value;
    PatchKeepsBlock(blocks[i], PathOf(mask), value, StringOf(s, "version"));
    UpdateKeepsIdentity(s, SetByMask(s, mask, source).state, i, WritePath(blocks[i], PathOf(mask), value));
  }

  lemma SetMetaKeeps(s: Fields, path: Path, value: Json)
    requires Identified(s) && |path| >= 1
    ensures Identified(SetMeta(s, path, value)) && Extends(s, SetMeta(s, path, value))
    ensures SetMeta(s, path, value) - {"meta"} == s - {"meta"}
  {
    var after := SetMeta(s, path, value);
    assert after["blocks"] == s["blocks"];
    assert s - {"meta", "blocks"} == after - {"meta", "blocks"};
    OutsideUnchanged(s, after);
  }

  lemma SetMetaUpdates(s: Fields, mask: string, source: Fields)
    requires Identified(s) && HasRoot(mask, META_ROOT) && SetByMask(s, mask, source).ok
    ensures Identified(SetByMask(s, mask, source).state) && Extends(s, SetByMask(s, mask, source).state)
    ensures SetByMask(s, mask, source).state - {"meta"} == s - {"meta"}
  {
    MaskedMetaSet(s, mask, source);
    SetMetaKeeps(s, PathOf(mask), ReadPath(source, PathOf(mask)).value);
  }

  lemma ErrorMaskRoot()
    ensures HasRoot(ERROR_MASK, META_ROOT)
  {
  }

  lemma AcceptedUpdates(s: Fields, e: Event)
    requires Identified(s) && !e.op.Start? && Apply(s, e).ok
    ensures Identified(Apply(s, e).state) && Extends(s, Apply(s, e).state)
  {
    match e.op {
      case Set =>
        if e.mask == "" {
          UpsertUpdates(s, e.block.value);
        } else if e.block.Some? {
          SetBlockUpdates(s, e.mask, e.block.value);
        } else {
          SetMetaUpdates(s, e.mask, e.meta.value);
        }
      case Append => AppendUpdates(s, e);
      case Error =>
        ErrorMaskRoot();
        SetMetaUpdates(s, e.mask, e.meta.value);
      case Ping =>
      case End =>
    }
  }

  /** Between starts, an accepted event keeps identity, version and biz, and never removes or moves a block. */
  lemma IdentityStep(s: Fields, e: Event)
    requires Identified(s) && !e.op.Start? && Apply(s, e).ok
    ensures Identified(Apply(s, e).state) && Extends(s, Apply(s, e).state)
    ensures Get(Apply(s, e).state, "version") == Get(s, "version") && Get(Apply(s, e).state, "biz") == Get(s, "biz")
  {
    AcceptedUpdates(s, e);
    OutsideUnchanged(s, Apply(s, e).state);
  }

  predicate NoStarts(events: seq<Event>) {
    forall i :: 0 <= i < |events| ==> !events[i].op.Start?
  }

  lemma {:induction false} NoStartsRun(s: Fields, events: seq<Event>)
    requires Identified(s) && NoStarts(events) && ApplyAll(s, events).ok
    ensures Identified(ApplyAll(s, events).state) && Extends(s, ApplyAll(s, events).state)
    ensures Get(ApplyAll(s, events).state, "version") == Get(s, "version")
    ensures Get(ApplyAll(s, events).state, "biz") == Get(s, "biz")
    decreases |events|
  {
    if events != [] {
      var init := events[..|events| - 1];
      NoStartsRun(s, init);
      IdentityStep(ApplyAll(s, init).state, events[|events| - 1]);
    }
  }

  /** Every accepted run that begins with a start is identified, whatever state it began in. */
  lemma {:induction false} ReachableIsIdentified(s: Fields, events: seq<Event>)
    requires events != [] && events[0].op.Start? && ApplyAll(s, events).ok
    ensures Identified(ApplyAll(s, events).state)
    decreases |events|
  {
    var init := events[..|events| - 1];
    var last := events[|events| - 1];
    if last.op.Start? {
      ValidModelIsIdentified(last.model.value);
    } else {
      assert init[0] == events[0];
      ReachableIsIdentified(s, init);
      IdentityStep(ApplyAll(s, init).state, last);
    }
  }
}
