/** What applying one event does, kind by kind, said of the snapshot before and after and of nothing in between. */
module ApplyLaws {
  import opened Json
  import opened Masks
  import opened Model
  import opened Reducer
  import opened ModelInvariants
  import opened ReducerLaws

  // ---------------------------------------------------------------------------------------------
  // Paths

  /** A walk from an object to a value, one segment at a time. */
  predicate Leads(trail: seq<Json>, path: Path) {
    && |trail| == |path| + 1
    && forall i :: 0 <= i < |path| ==>
      trail[i].Obj? && path[i] in trail[i].fields && trail[i + 1] == trail[i].fields[path[i]]
  }

  lemma {:induction false} TrailToLookup(trail: seq<Json>, path: Path)
    requires Leads(trail, path)
    ensures Lookup(trail[0], path) == Some(trail[|path|])
    decreases |path|
  {
    if path != [] {
      TrailToLookup(trail[1..], path[1..]);
    }
  }

  lemma {:induction false} LookupToTrail(current: Json, path: Path) returns (trail: seq<Json>)
    requires Lookup(current, path).Some?
    ensures Leads(trail, path) && trail[0] == current && trail[|path|] == Lookup(current, path).value
    decreases |path|
  {
    if path == [] {
      trail := [current];
    } else {
      var rest := LookupToTrail(current.fields[path[0]], path[1..]);
      trail := [current] + rest;
    }
  }

  /** Lookup finds a value exactly when every segment of the path leads one object further. */
  lemma LookupExactly(current: Json, path: Path, value: Json)
    ensures Lookup(current, path) == Some(value) <==>
      exists trail :: Leads(trail, path) && trail[0] == current && trail[|path|] == value
  {
    if Lookup(current, path).Some? {
      var trail := LookupToTrail(current, path);
      assert Leads(trail, path) && trail[0] == current;
    }
    if trail :| Leads(trail, path) && trail[0] == current && trail[|path|] == value {
      TrailToLookup(trail, path);
    }
  }

  /** A nested value in a payload goes before a flat one, and the flat one is the last segment at the top level. */
  lemma NestedBeforeFlat(source: Fields, path: Path)
    requires |path| >= 1
    ensures
      var last := path[|path| - 1];
      && (forall trail :: Leads(trail, path) && trail[0] == Obj(source) ==>
        ReadPath(source, path) == Some(trail[|path|]))
      && ((forall trail :: Leads(trail, path) ==> trail[0] != Obj(source)) ==>
        ReadPath(source, path) == if last in source then Some(source[last]) else None)
  {
    forall trail | Leads(trail, path) && trail[0] == Obj(source) ensures ReadPath(source, path) == Some(trail[|path|]) {
      TrailToLookup(trail, path);
    }
    if Lookup(Obj(source), path).Some? {
      var trail := LookupToTrail(Obj(source), path);
      assert Leads(trail, path);
    }
  }

  // ---------------------------------------------------------------------------------------------
  // Blocks

  /** The block list of a snapshot holds these objects. */
  lemma BlocksAre(s: Fields, blocks: seq<Fields>)
    ensures BlocksOf(s) == Some(blocks) <==>
      if "blocks" !in s then blocks == []
      else
        && s["blocks"].Arr? && |s["blocks"].items| == |blocks|
        && forall k :: 0 <= k < |blocks| ==> s["blocks"].items[k] == Obj(blocks[k])
  {
    if "blocks" in s && s["blocks"].Arr? && |s["blocks"].items| == |blocks| {
      var items := s["blocks"].items;
      if forall k :: 0 <= k < |blocks| ==> items[k] == Obj(blocks[k]) {
        assert Unwrap(items) == blocks;
      }
    }
  }

  /** i is where the first block with this id is, or where it would be added. */
  predicate FirstWith(blocks: seq<Fields>, id: string, i: nat) {
    && i <= |blocks|
    && (i < |blocks| ==> Get(blocks[i], "id") == Str(id))
    && forall k :: 0 <= k < i ==> Get(blocks[k], "id") != Str(id)
  }

  lemma FirstIsFound(blocks: seq<Fields>, id: string, i: nat)
    requires FirstWith(blocks, id, i)
    ensures FindBlock(blocks, id) == i
  {
  }

  /** The snapshot differs at most under one key. */
  predicate OnlyChanges(before: Fields, after: Fields, key: string) {
    before - {key} == after - {key}
  }

  /** The block list differs from what it was at one place, which may be a new last one. */
  predicate PutsBlock(before: Fields, after: Fields, i: nat, block: Fields) {
    && OnlyChanges(before, after, "blocks") && BlocksOf(before).Some? && BlocksOf(after).Some?
    && var old_, new_ := BlocksOf(before).value, BlocksOf(after).value;
    && i <= |old_| && |new_| == (if i < |old_| then |old_| else i + 1)
    && new_[i] == block
    && forall k :: 0 <= k < |old_| && k != i ==> new_[k] == old_[k]
  }

  lemma PuttingBlock(s: Fields, i: nat, block: Fields)
    requires BlocksOf(s).Some? && i <= |BlocksOf(s).value|
    ensures
      var blocks := BlocksOf(s).value;
      PutsBlock(s, WithBlocks(s, if i < |blocks| then blocks[i := block] else blocks + [block]), i, block)
  {
    var blocks := BlocksOf(s).value;
    BlocksOfWithBlocks(s, if i < |blocks| then blocks[i := block] else blocks + [block]);
  }

  /**
   * A set without a mask is accepted exactly for a valid block that the snapshot's version and block list allow, and
   * puts that block in place of the first one with its id, or last.
   */
  lemma UpsertMeans(s: Fields, block: Fields, n: nat, i: nat)
    requires BlocksOf(s).Some? ==> FirstWith(BlocksOf(s).value, StringOf(block, "id"), i)
    ensures
      var out := Apply(s, Event(Set, n, block := Some(block)));
      && (out.ok <==>
        ValidBlock(block) && BlocksOf(s).Some? && (IsReference(block) ==> Get(s, "version") == Str(PROTOCOL_VERSION)))
      && (out.ok ==> PutsBlock(s, out.state, i, block))
  {
    hide ValidBlock, PutsBlock;
    if BlocksOf(s).Some? {
      FirstIsFound(BlocksOf(s).value, StringOf(block, "id"), i);
      PuttingBlock(s, i, block);
    }
  }

  /** The new value is the old one followed by the added one; nothing counts as an empty text or list. */
  predicate Follows(old_: Json, added: Json, new_: Json) {
    || (old_.Null? && (added.Str? || added.Arr?) && new_ == added)
    || (old_.Str? && added.Str? && new_.Str? && |new_.text| == |old_.text| + |added.text|
      && old_.text <= new_.text && added.text == new_.text[|old_.text|..])
    || (old_.Arr? && added.Arr? && new_.Arr? && |new_.items| == |old_.items| + |added.items|
      && old_.items <= new_.items && added.items == new_.items[|old_.items|..])
  }

  predicate Appendable(field: string, block: Fields) {
    && field != "" && !HasDot(field) && field !in {"id", "ref"} && field in block
    && !IsReference(block) && StringOf(block, "id") != ""
  }

  lemma AppendingFollows(old_: Json, added: Json)
    ensures AppendValue(old_, added).Some? <==>
      (added.Str? && (old_.Null? || old_.Str?)) || (added.Arr? && (old_.Null? || old_.Arr?))
    ensures AppendValue(old_, added).Some? ==> Follows(old_, added, AppendValue(old_, added).value)
  {
  }

  lemma AppendIsPiece(s: Fields, field: string, block: Fields, n: nat)
    requires field in block
    ensures Apply(s, Event(Append, n, mask := "block." + field, block := Some(block)))
         == AppendPiece(s, block, field, block[field])
  {
    assert block[field := block[field]] == block;
    ApplyPiece(s, block, field, block[field], n);
  }

  lemma AppendNeedsField(s: Fields, field: string, block: Fields, n: nat)
    requires field !in block
    ensures !Apply(s, Event(Append, n, mask := "block." + field, block := Some(block))).ok
  {
    assert ("block." + field)[6..] == field;
  }

  /** An append as it goes past the mask: i is where the block is or would be. */
  predicate AppendGoes(s: Fields, field: string, block: Fields, i: nat) {
    && Appendable(field, block) && BlocksOf(s).Some? && i <= |BlocksOf(s).value|
    && var blocks := BlocksOf(s).value;
    if i == |blocks| then ValidBlock(block)
    else
      var old_ := Get(blocks[i], field);
      && !IsReference(blocks[i])
      && ((block[field].Str? && (old_.Null? || old_.Str?)) || (block[field].Arr? && (old_.Null? || old_.Arr?)))
  }

  /**
   * An append is accepted exactly when it goes, leaves the old value followed by the added one in the field of the
   * first block with that id and every other field alone, or adds the block at the end when there is none.
   */
  lemma AppendMeans(s: Fields, field: string, block: Fields, n: nat, i: nat)
    requires BlocksOf(s).Some? ==> FirstWith(BlocksOf(s).value, StringOf(block, "id"), i)
    ensures
      var out := Apply(s, Event(Append, n, mask := "block." + field, block := Some(block)));
      && (out.ok <==> AppendGoes(s, field, block, i))
      && (out.ok ==>
        var old_, new_ := BlocksOf(s).value, BlocksOf(out.state).GetOr([]);
        if i == |old_| then PutsBlock(s, out.state, i, block)
        else
          && i < |new_| && PutsBlock(s, out.state, i, new_[i])
          && OnlyChanges(old_[i], new_[i], field) && field in new_[i]
          && Follows(Get(old_[i], field), block[field], new_[i][field]))
  {
    if field in block {
      AppendIsPiece(s, field, block, n);
      if BlocksOf(s).Some? {
        AppendPieceMeans(s, field, block, i);
      }
    } else {
      AppendNeedsField(s, field, block, n);
    }
  }

  lemma AppendPieceMeans(s: Fields, field: string, block: Fields, i: nat)
    requires field in block && BlocksOf(s).Some? && FirstWith(BlocksOf(s).value, StringOf(block, "id"), i)
    ensures
      var out := AppendPiece(s, block, field, block[field]);
      && (out.ok <==> AppendGoes(s, field, block, i))
      && (out.ok ==>
        var old_, new_ := BlocksOf(s).value, BlocksOf(out.state).GetOr([]);
        if i == |old_| then PutsBlock(s, out.state, i, block)
        else
          && i < |new_| && PutsBlock(s, out.state, i, new_[i])
          && OnlyChanges(old_[i], new_[i], field) && field in new_[i]
          && Follows(Get(old_[i], field), block[field], new_[i][field]))
  {
    hide ValidBlock, AppendValue, Follows, WithBlocks;
    var blocks := BlocksOf(s).value;
    FirstIsFound(blocks, StringOf(block, "id"), i);
    assert block[field := block[field]] == block;
    if i < |blocks| {
      AppendingFollows(Get(blocks[i], field), block[field]);
      if AppendValue(Get(blocks[i], field), block[field]).Some? {
        PuttingBlock(s, i, blocks[i][field := AppendValue(Get(blocks[i], field), block[field]).value]);
      }
    } else {
      PuttingBlock(s, i, block);
    }
  }

  /** A value stands at the path, and everything at incomparable paths is as it was. */
  ghost predicate Wrote(before: Json, after: Json, path: Path, value: Json) {
    && Lookup(after, path) == Some(value)
    && forall q :: Incomparable(path, q) ==> Lookup(after, q) == Lookup(before, q)
  }

  lemma WritingWrote(target: Fields, path: Path, value: Json)
    requires |path| >= 1
    ensures Wrote(Obj(target), Obj(WritePath(target, path, value)), path, value)
  {
    WriteThenLookup(target, path, value);
    forall q | Incomparable(path, q)
      ensures Lookup(Obj(WritePath(target, path, value)), q) == Lookup(Obj(target), q)
    {
      WriteElsewhere(target, path, value, q);
    }
  }

  /** The metadata of a snapshot. Anything that is no object counts as empty. */
  function MetaOf(s: Fields): Fields {
    if "meta" in s && s["meta"].Obj? then s["meta"].fields else map[]
  }

  lemma MaskUnder(root: string, rel: string)
    requires root in {"meta", "block"}
    ensures HasRoot(root + "." + rel, root) <==> rel != ""
    ensures HasDot(root + "." + rel) && PathOf(root + "." + rel) == Split(rel)
    ensures !HasRoot(root + "." + rel, if root == "meta" then "block" else "meta")
  {
    var mask := root + "." + rel;
    assert mask[|root|] == '.' && mask[|root| + 1..] == rel;
    assert mask[0] == root[0];
    MaskUnderRoot(mask, root);
  }

  /** A masked set of the metadata: accepted exactly when the payload carries the value, and read back from it. */
  lemma MetaSetMeans(s: Fields, rel: string, source: Fields, n: nat, value: Json)
    ensures
      var e := Event(Set, n, mask := "meta." + rel, meta := Some(source));
      var after := Apply(s, e).state;
      && (Apply(s, e).ok <==> rel != "" && ReadPath(source, Split(rel)).Some?)
      && (rel != "" && ReadPath(source, Split(rel)) == Some(value) ==>
        && OnlyChanges(s, after, "meta") && "meta" in after && after["meta"].Obj?
        && Wrote(Obj(MetaOf(s)), after["meta"], Split(rel), value))
  {
    MetaSetApplies(s, rel, source, n);
    hide Apply, Split, ReadPath, SetMeta, Wrote;
    MetaWritten(s, Split(rel), value);
  }

  lemma MetaSetApplies(s: Fields, rel: string, source: Fields, n: nat)
    ensures Apply(s, Event(Set, n, mask := "meta." + rel, meta := Some(source)))
         == if rel == "" || ReadPath(source, Split(rel)).None? then Reject(s)
            else Accept(SetMeta(s, Split(rel), ReadPath(source, Split(rel)).value))
  {
    var mask := "meta." + rel;
    assert mask == "meta" + "." + rel;
    hide Split, PathOf, ReadPath, SetMeta, SetByMask, HasRoot, HasDot;
    MaskUnder("meta", rel);
    if rel != "" {
      MaskedMetaSet(s, mask, source);
    }
  }

  lemma MetaWritten(s: Fields, path: Path, value: Json)
    requires |path| >= 1
    ensures
      var after := SetMeta(s, path, value);
      && OnlyChanges(s, after, "meta") && "meta" in after && after["meta"].Obj?
      && Wrote(Obj(MetaOf(s)), after["meta"], path, value)
  {
    WritingWrote(MetaOf(s), path, value);
    hide Wrote, WritePath;
  }

  /** An error puts its payload at meta.error, on every snapshot, and changes nothing else. */
  lemma ErrorMeans(s: Fields, payload: Fields, n: nat)
    requires Get(payload, "error").Obj?
    ensures
      var out := Apply(s, Event(Error, n, mask := "meta.error", meta := Some(payload)));
      && out.ok && OnlyChanges(s, out.state, "meta") && "meta" in out.state && out.state["meta"].Obj?
      && Get(out.state["meta"].fields, "error") == payload["error"]
      && OnlyChanges(MetaOf(s), out.state["meta"].fields, "error")
  {
    hide Split, PathOf, SetByMask, SetMeta, ReadPath;
    ErrorMaskRoot();
    MaskedMetaSet(s, ERROR_MASK, payload);
    ErrorPath();
    OneFieldRead(payload, "error");
    OneFieldWritten(s, "error", payload["error"]);
  }

  lemma OneFieldRead(source: Fields, field: string)
    requires field in source
    ensures ReadPath(source, [field]) == Some(source[field])
  {
    assert Lookup(source[field], [field][1..]) == Some(source[field]);
  }

  lemma OneFieldWritten(s: Fields, field: string, value: Json)
    ensures
      var after := SetMeta(s, [field], value);
      && OnlyChanges(s, after, "meta") && "meta" in after && after["meta"].Obj?
      && Get(after["meta"].fields, field) == value
      && OnlyChanges(MetaOf(s), after["meta"].fields, field)
  {
  }

  lemma OneSegment(mask: string, root: string, part: string)
    requires mask == root + "." + part && !HasDot(root) && !HasDot(part)
    ensures HasDot(mask) && PathOf(mask) == [part]
  {
    hide Split;
    MaskUnderRoot(mask, root);
    assert mask[|root| + 1..] == part;
    SplitJoin(part);
    assert mask[|root|] == '.';
  }

  lemma ErrorPath()
    ensures HasDot(ERROR_MASK) && PathOf(ERROR_MASK) == ["error"]
  {
    hide Split, PathOf;
    OneSegment(ERROR_MASK, META_ROOT, "error");
  }

  /** A masked set that names a field of a block other than its identity. */
  predicate Patches(rel: string, source: Fields) {
    rel != "" && Split(rel)[0] !in {"id", "ref"} && !IsReference(source)
  }

  lemma BlockSetIsValid(rel: string, source: Fields, n: nat)
    ensures ValidEvent(Event(Set, n, mask := "block." + rel, block := Some(source))) <==> Patches(rel, source)
  {
    assert "block." + rel == "block" + "." + rel;
    hide Split, PathOf, HasRoot, HasDot;
    MaskUnder("block", rel);
  }

  /** A masked set of a block reaches the first block with the payload's id, which must be inline, and only that. */
  lemma BlockSetMeans(s: Fields, rel: string, source: Fields, n: nat, i: nat, value: Json)
    requires BlocksOf(s).Some? ==> FirstWith(BlocksOf(s).value, StringOf(source, "id"), i)
    ensures
      var out := Apply(s, Event(Set, n, mask := "block." + rel, block := Some(source)));
      var old_, new_ := BlocksOf(s).GetOr([]), BlocksOf(out.state).GetOr([]);
      && (out.ok <==>
        && Patches(rel, source) && ReadPath(source, Split(rel)).Some?
        && BlocksOf(s).Some? && i < |old_| && !IsReference(old_[i]))
      && (out.ok && ReadPath(source, Split(rel)) == Some(value) ==>
        && i < |new_| && PutsBlock(s, out.state, i, new_[i])
        && Wrote(Obj(old_[i]), Obj(new_[i]), Split(rel), value))
  {
    var mask, path := "block." + rel, Split(rel);
    assert mask == "block" + "." + rel;
    BlockSetIsValid(rel, source, n);
    MaskUnder("block", rel);
    hide ReadPath, ValidEvent, Wrote, WithBlocks, Split, SetByMask, HasRoot, HasDot, PathOf;
    if Patches(rel, source) {
      MaskedBlockSet(s, mask, source);
      if BlocksOf(s).Some? {
        var blocks := BlocksOf(s).value;
        FirstIsFound(blocks, StringOf(source, "id"), i);
        if i < |blocks| {
          WritingWrote(blocks[i], path, value);
          PuttingBlock(s, i, WritePath(blocks[i], path, value));
        }
      }
    }
  }

  /** A start brings its model whatever was there; a ping and an end change nothing; an unknown event is refused. */
  lemma ControlMeans(s: Fields, model: Fields, name: string, n: nat)
    ensures Apply(s, StartEvent(model, n)).ok <==> ValidModel(model)
    ensures ValidModel(model) ==> Apply(s, StartEvent(model, n)).state == model
    ensures Apply(s, PingEvent(n)) == Apply(s, EndEvent(n)) == Outcome(true, s)
    ensures Apply(s, Event(Unknown(name), n)) == Outcome(false, s)
  {
  }

  predicate OnlyCarries(e: Event, model: bool, meta: bool, block: bool) {
    e.model.Some? == model && e.meta.Some? == meta && e.block.Some? == block
  }

  /** An accepted event carries the one payload its kind and mask call for, and no other. */
  lemma AcceptedShape(s: Fields, e: Event)
    requires Apply(s, e).ok
    ensures
      match e.op
      case Start => e.mask == "" && OnlyCarries(e, true, false, false)
      case Set =>
        || (e.mask == "" && OnlyCarries(e, false, false, true))
        || ("block." <= e.mask && OnlyCarries(e, false, false, true))
        || ("meta." <= e.mask && OnlyCarries(e, false, true, false))
      case Append => "block." <= e.mask && OnlyCarries(e, false, false, true)
      case Error => e.mask == "meta.error" && OnlyCarries(e, false, true, false)
      case Ping => e.mask == "" && OnlyCarries(e, false, false, false)
      case End => e.mask == "" && OnlyCarries(e, false, false, false)
      case Unknown(_) => false
  {
    hide ValidModel, ValidBlock, ValidFieldPatch, SetByMask, AppendByMask, UpsertBlock;
    assert "block" + "." == "block." && "meta" + "." == "meta.";
  }

  /** A block in terms of its fields: a bare reference, or an inline block with a type and optional parent and group. */
  predicate BlockFields(block: Fields) {
    && "id" in block && block["id"].Str? && block["id"].text != ""
    && if "ref" in block then block.Keys == {"id", "ref"} && block["ref"].Str? && block["ref"].text != ""
       else
         && "type" in block && block["type"].Str? && block["type"].text != ""
         && ("parent_id" in block ==> block["parent_id"].Null? || block["parent_id"].Str?)
         && ("group_id" in block ==> block["group_id"].Null? || block["group_id"].Str?)
  }

  lemma ValidBlockExactly(block: Fields)
    ensures ValidBlock(block) <==> BlockFields(block)
  {
    if "id" in block && "ref" in block {
      TwoKeys(block, "id", "ref");
    }
  }

  /** A model in terms of its fields. */
  predicate ModelFields(model: Fields) {
    && "version" in model && model["version"] in {Str("1.0"), Str("1.1")}
    && "biz" in model && model["biz"].Str? && model["biz"].text != ""
    && "meta" in model && model["meta"].Obj?
    && "blocks" in model && model["blocks"].Arr?
    && var items := model["blocks"].items;
    && (forall i :: 0 <= i < |items| ==>
      && items[i].Obj? && BlockFields(items[i].fields)
      && ("ref" in items[i].fields ==> model["version"] == Str("1.1")))
    && forall i, j :: 0 <= i < j < |items| && items[i].Obj? && items[j].Obj? ==>
      Get(items[i].fields, "id") != Get(items[j].fields, "id")
  }

  lemma ValidModelExactly(model: Fields)
    ensures ValidModel(model) <==> ModelFields(model)
  {
    hide BlockFields, ValidBlock;
    if "blocks" in model && model["blocks"].Arr? {
      var items := model["blocks"].items;
      if AllObjects(items) {
        var blocks := Unwrap(items);
        assert forall i :: 0 <= i < |items| ==> blocks[i] == items[i].fields;
        forall i | 0 <= i < |items| ensures ValidBlock(blocks[i]) <==> BlockFields(items[i].fields) {
          ValidBlockExactly(blocks[i]);
        }
        if forall i :: 0 <= i < |items| ==> ValidBlock(blocks[i]) {
          SameIds(items);
        }
      }
    }
  }

  lemma SameIds(items: seq<Json>)
    requires AllObjects(items) && forall i :: 0 <= i < |items| ==> ValidBlock(items[i].fields)
    ensures DistinctIds(Unwrap(items)) <==>
      forall i, j :: 0 <= i < j < |items| ==> Get(items[i].fields, "id") != Get(items[j].fields, "id")
  {
    var blocks := Unwrap(items);
    forall i | 0 <= i < |items| ensures Get(blocks[i], "id") == Str(StringOf(blocks[i], "id")) {
      assert ValidBlock(items[i].fields);
    }
    hide ValidBlock;
    assert forall i :: 0 <= i < |items| ==> blocks[i] == items[i].fields;
  }
}
