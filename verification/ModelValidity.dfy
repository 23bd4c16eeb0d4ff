/** Exactly which accepted events can take a model out of full validity. */
module ModelValidity {
  import opened Json
  import opened Masks
  import opened Model
  import opened Reducer
  import opened ModelInvariants

  /** The fields of an inline block that model validation reads and that a field patch may reach. */
  const TYPED_FIELDS := {"type", "parent_id", "group_id"}

  predicate TypedValue(field: string, value: Json) {
    if field == "type" then value.Str? && value.text != ""
    else value.Null? || value.Str?
  }

  /** A field patch that puts a value of the wrong type into a typed field. It can be read off the event alone. */
  predicate BreaksTypes(e: Event) {
    && e.block.Some? && HasDot(e.mask)
    && var path := PathOf(e.mask);
    && path[0] in TYPED_FIELDS
    && match e.op
       case Set => |path| > 1 || !TypedValue(path[0], ReadPath(e.block.value, path).GetOr(Null))
       case Append => path[0] != "type" && Get(e.block.value, path[0]).Arr?
       case _ => false
  }

  lemma UpdateValidity(before: Fields, after: Fields, i: nat, block: Fields)
    requires ValidModel(before) && BlockUpdate(before, after, i, block) && Identified(after)
    ensures ValidModel(after) <==> ValidBlock(block)
  {
    var blocks := BlocksOf(before).value;
    var updated := if i < |blocks| then blocks[i := block] else blocks + [block];
    BlocksOfWithBlocks(before, updated);
    assert updated[i] == block;
    forall k | 0 <= k < |updated|
      ensures ReferenceAllowed(updated[k], StringOf(before, "version"))
      ensures k != i ==> ValidBlock(updated[k])
    {
      assert IdentifiedBlock(updated[k], StringOf(after, "version"));
      if k != i {
        assert updated[k] == blocks[k];
      }
    }
  }

  lemma PatchValidity(block: Fields, path: Path, value: Json)
    requires ValidBlock(block) && !IsReference(block) && |path| >= 1 && path[0] !in {"id", "ref"}
    ensures ValidBlock(WritePath(block, path, value))
       <==> (path[0] in TYPED_FIELDS ==> |path| == 1 && TypedValue(path[0], value))
  {
    var written := WritePath(block, path, value);
    WriteTouchesHead(block, path, value);
    assert !IsReference(written);
    assert |path| > 1 ==> Get(written, path[0]).Obj?;
    assert |path| == 1 ==> Get(written, path[0]) == value;
  }

  /** An append that creates its block is the block's own upsert. */
  lemma CreatingAppend(s: Fields, e: Event)
    requires ValidModel(s) && ValidEvent(e) && e.op.Append? && Apply(s, e).ok && HasDot(e.mask)
    requires PathOf(e.mask) == [AppendField(e.mask)]
    requires FindBlock(BlocksOf(s).value, StringOf(e.block.value, "id")) == |BlocksOf(s).value|
    requires Identified(Apply(s, e).state)
    ensures ValidModel(Apply(s, e).state) && !BreaksTypes(e)
  {
    hide Identified, DistinctIds, FindBlock;
    var block, field := e.block.value, AppendField(e.mask);
    UpdateValidity(s, Apply(s, e).state, |BlocksOf(s).value|, block);
    assert ValidBlock(block) && (field == "parent_id" ==> OptionalString(block, "parent_id"));
  }

  lemma GrowingAppend(s: Fields, e: Event)
    requires ValidModel(s) && ValidEvent(e) && e.op.Append? && Apply(s, e).ok && HasDot(e.mask)
    requires PathOf(e.mask) == [AppendField(e.mask)]
    requires FindBlock(BlocksOf(s).value, StringOf(e.block.value, "id")) < |BlocksOf(s).value|
    requires Identified(Apply(s, e).state)
    ensures ValidModel(Apply(s, e).state) <==> !BreaksTypes(e)
  {
    hide Identified, DistinctIds;
    var block, field, blocks := e.block.value, AppendField(e.mask), BlocksOf(s).value;
    var i := FindBlock(blocks, StringOf(block, "id"));
    var value := AppendValue(Get(blocks[i], field), block[field]).value;
    UpdateValidity(s, Apply(s, e).state, i, blocks[i][field := value]);
    PatchValidity(blocks[i], [field], value);
    assert ValidBlock(blocks[i]);
  }

  lemma AppendValidity(s: Fields, e: Event)
    requires ValidModel(s) && ValidEvent(e) && e.op.Append? && Apply(s, e).ok
    ensures ValidModel(Apply(s, e).state) <==> !BreaksTypes(e)
  {
    ValidModelIsIdentified(s);
    AppendUpdates(s, e);
    AppendPath(e.mask);
    if FindBlock(BlocksOf(s).value, StringOf(e.block.value, "id")) == |BlocksOf(s).value| {
      CreatingAppend(s, e);
    } else {
      GrowingAppend(s, e);
    }
  }

  lemma SetBlockValidity(s: Fields, e: Event)
    requires ValidModel(s) && ValidEvent(e) && e.op.Set? && e.mask != "" && e.block.Some? && Apply(s, e).ok
    ensures ValidModel(Apply(s, e).state) <==> !BreaksTypes(e)
  {
    ValidModelIsIdentified(s);
    var source := e.block.value;
    SetBlockUpdates(s, e.mask, source);
    SetBlockShape(s, e.mask, source);
    var blocks := BlocksOf(s).value;
    var i := FindBlock(blocks, StringOf(source, "id"));
    var value := ReadPath(source, PathOf(e.mask)).value;
    PatchValidity(blocks[i], PathOf(e.mask), value);
    UpdateValidity(s, Apply(s, e).state, i, WritePath(blocks[i], PathOf(e.mask), value));
  }

  lemma MetaValidity(s: Fields, mask: string, source: Fields)
    requires ValidModel(s) && HasRoot(mask, META_ROOT) && SetByMask(s, mask, source).ok
    ensures ValidModel(SetByMask(s, mask, source).state)
  {
    ValidModelIsIdentified(s);
    SetMetaUpdates(s, mask, source);
    var after := SetByMask(s, mask, source).state;
    OutsideUnchanged(s, after);
    assert after["blocks"] == (after - {"meta"})["blocks"] == (s - {"meta"})["blocks"] == s["blocks"];
  }

  /**
   * An accepted event takes a valid model to a valid model exactly when it does not put a
   * wrongly typed value into type, parent_id or group_id.
   */
  lemma ValidityStep(s: Fields, e: Event)
    requires ValidModel(s) && Apply(s, e).ok
    ensures ValidModel(Apply(s, e).state) <==> !BreaksTypes(e)
  {
    match e.op {
      case Start =>
      case Set =>
        if e.mask == "" {
          ValidModelIsIdentified(s);
          UpsertUpdates(s, e.block.value);
          UpdateValidity(s, Apply(s, e).state, FindBlock(BlocksOf(s).value, StringOf(e.block.value, "id")),
            e.block.value);
        } else if e.block.Some? {
          SetBlockValidity(s, e);
        } else {
          MetaValidity(s, e.mask, e.meta.value);
        }
      case Append => AppendValidity(s, e);
      case Error =>
        ErrorMaskRoot();
        MetaValidity(s, e.mask, e.meta.value);
      case Ping =>
      case End =>
    }
  }

  /** A field patch aimed at a typed field at all: the coarse guard a producer can apply to its masks. */
  predicate PatchesTypedField(e: Event) {
    e.block.Some? && HasDot(e.mask) && PathOf(e.mask)[0] in TYPED_FIELDS
  }

  predicate KeepsTypes(events: seq<Event>) {
    forall i :: 0 <= i < |events| ==> !BreaksTypes(events[i])
  }

  /** An accepted run from a start, none of whose events breaks a typed field, ends in a model a start can carry. */
  lemma {:induction false} ReachableIsValid(s: Fields, events: seq<Event>, seqNo: nat)
    requires events != [] && events[0].op.Start? && ApplyAll(s, events).ok && KeepsTypes(events)
    ensures ValidModel(ApplyAll(s, events).state)
    ensures ValidEvent(StartEvent(ApplyAll(s, events).state, seqNo))
    decreases |events|
  {
    var init := events[..|events| - 1];
    var last := events[|events| - 1];
    if last.op.Start? {
    } else {
      assert init[0] == events[0];
      assert KeepsTypes(init);
      ReachableIsValid(s, init, seqNo);
      ValidityStep(ApplyAll(s, init).state, last);
    }
  }

  /** Masks that stay off the typed fields can never break them. */
  lemma UntypedMasksKeepTypes(events: seq<Event>)
    requires forall i :: 0 <= i < |events| ==> !PatchesTypedField(events[i])
    ensures KeepsTypes(events)
  {
    forall i | 0 <= i < |events| ensures !BreaksTypes(events[i]) {
      assert !PatchesTypedField(events[i]);
    }
  }

  lemma TypeMask()
    ensures HasRoot("block.type", BLOCK_ROOT) && HasDot("block.type") && PathOf("block.type") == ["type"]
  {
    var mask := "block.type";
    assert mask[6..] == "type";
    assert HasRoot(mask, BLOCK_ROOT) by {
      assert mask == BLOCK_ROOT + "." + "type";
    }
    hide HasRoot, Split, HasDot;
    NoDotInType();
    MaskPath(mask, BLOCK_ROOT);
    OnePart("type");
  }

  lemma NoDotInType()
    ensures !HasDot("type") && !HasDot(BLOCK_ROOT)
  {
  }

  /** A segment without a dot is its own path. */
  lemma OnePart(part: string)
    requires !HasDot(part)
    ensures Split(part) == [part]
  {
    hide HasDot;
    SplitJoin(part);
    assert |Split(part)| == 1;
  }

  function NullType(id: Json): Fields {
    map["id" := id, "type" := Null]
  }

  lemma FindInModel(model: Fields, i: nat)
    requires ValidModel(model) && i < |BlocksOf(model).value|
    ensures FindBlock(BlocksOf(model).value, StringOf(BlocksOf(model).value[i], "id")) == i
  {
    var blocks := BlocksOf(model).value;
    var k := FindBlock(blocks, StringOf(blocks[i], "id"));
    assert ValidBlock(blocks[i]);
    assert k <= i;
    assert StringOf(blocks[k], "id") == StringOf(blocks[i], "id");
  }

  lemma NullTypeBreaks(e: Event)
    requires HasDot(e.mask) && PathOf(e.mask) == ["type"]
    requires e.op.Set? && e.block.Some? && Get(e.block.value, "type") == Null && "type" in e.block.value
    ensures ReadPath(e.block.value, PathOf(e.mask)) == Some(Null) && BreaksTypes(e)
  {
    assert Lookup(Obj(e.block.value), ["type"]) == Lookup(Null, []);
  }

  lemma NullTypeIsValidEvent(e: Event)
    requires HasRoot(e.mask, BLOCK_ROOT) && HasDot(e.mask) && PathOf(e.mask) == ["type"]
    requires e.block.Some? && "ref" !in e.block.value
    requires e == Event(Set, e.seqNo, mask := e.mask, block := e.block)
    ensures ValidEvent(e) && e.mask != ""
  {
  }

  lemma BlockSetAccepted(model: Fields, i: nat, mask: string, source: Fields)
    requires ValidModel(model) && i < |BlocksOf(model).value| && !IsReference(BlocksOf(model).value[i])
    requires HasRoot(mask, BLOCK_ROOT) && HasDot(mask) && ReadPath(source, PathOf(mask)).Some?
    requires StringOf(source, "id") == StringOf(BlocksOf(model).value[i], "id")
    ensures SetByMask(model, mask, source).ok
  {
    MaskedBlockSet(model, mask, source);
    FindInModel(model, i);
  }

  lemma NullTypeInvalidates(model: Fields, i: nat, e: Event)
    requires ValidModel(model) && i < |BlocksOf(model).value| && !IsReference(BlocksOf(model).value[i])
    requires HasRoot(e.mask, BLOCK_ROOT) && HasDot(e.mask) && PathOf(e.mask) == ["type"]
    requires e == Event(Set, e.seqNo, mask := e.mask, block := Some(NullType(Get(BlocksOf(model).value[i], "id"))))
    ensures ValidEvent(e) && Apply(model, e).ok && !ValidModel(Apply(model, e).state)
  {
    NullTypeBreaks(e);
    NullTypeIsValidEvent(e);
    BlockSetAccepted(model, i, e.mask, e.block.value);
    ValidModelIsIdentified(model);
    SetBlockValidity(model, e);
  }

  /** In every valid model, any inline block can be given a null type by one accepted event. */
  lemma AcceptedEventCanInvalidate(model: Fields, i: nat, seqNo: nat)
    requires ValidModel(model) && i < |BlocksOf(model).value| && !IsReference(BlocksOf(model).value[i])
    ensures
      var e := Event(Set, seqNo, mask := "block.type", block := Some(NullType(Get(BlocksOf(model).value[i], "id"))));
      ValidEvent(e) && Apply(model, e).ok && !ValidModel(Apply(model, e).state)
  {
    TypeMask();
    NullTypeInvalidates(model, i, Event(Set, seqNo, mask := "block.type",
      block := Some(NullType(Get(BlocksOf(model).value[i], "id")))));
  }
}
