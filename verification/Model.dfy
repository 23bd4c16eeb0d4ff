/** Blocks, models and events, and the checks each must pass (sdks/go/ui/model.go, event.go). */
module Model {
  import opened Json
  import opened Masks

  const PROTOCOL_VERSION := "1.1"
  const BLOCK_ROOT := "block"
  const META_ROOT := "meta"
  const ERROR_MASK := "meta.error"

  predicate IsReference(block: Fields) {
    "ref" in block
  }

  /** A block field that may be absent, null or a string. */
  predicate OptionalString(block: Fields, field: string) {
    Get(block, field).Null? || Get(block, field).Str?
  }

  predicate ValidBlock(block: Fields) {
    && StringOf(block, "id") != ""
    && if IsReference(block)
       then StringOf(block, "ref") != "" && |block| == 2
       else StringOf(block, "type") != "" && OptionalString(block, "parent_id") && OptionalString(block, "group_id")
  }

  /** The block list of a snapshot: an absent key reads as no blocks, anything but a list of objects is an error. */
  function BlocksOf(snapshot: Fields): (r: Option<seq<Fields>>) {
    if "blocks" !in snapshot then Some([])
    else if snapshot["blocks"].Arr? && AllObjects(snapshot["blocks"].items)
    then Some(Unwrap(snapshot["blocks"].items))
    else None
  }

  predicate DistinctIds(blocks: seq<Fields>) {
    forall i, j :: 0 <= i < j < |blocks| ==> StringOf(blocks[i], "id") != StringOf(blocks[j], "id")
  }

  predicate ReferenceAllowed(block: Fields, version: string) {
    IsReference(block) ==> version == PROTOCOL_VERSION
  }

  predicate ValidModel(model: Fields) {
    && StringOf(model, "version") in {"1.0", PROTOCOL_VERSION}
    && StringOf(model, "biz") != ""
    && Get(model, "meta").Obj?
    && "blocks" in model
    && BlocksOf(model).Some?
    && var blocks := BlocksOf(model).value;
    && (forall i :: 0 <= i < |blocks| ==>
      ValidBlock(blocks[i]) && ReferenceAllowed(blocks[i], StringOf(model, "version")))
    && DistinctIds(blocks)
  }

  /** Checks a model block by block against the ids seen so far, and decides exactly ValidModel. */
  method ValidateModel(model: Fields) returns (ok: bool)
    ensures ok <==> ValidModel(model)
  {
    var version := StringOf(model, "version");
    if version != "1.0" && version != PROTOCOL_VERSION {
      return false;
    }
    if StringOf(model, "biz") == "" || !Get(model, "meta").Obj? || "blocks" !in model {
      return false;
    }
    var read := BlocksOf(model);
    if read.None? {
      return false;
    }
    var blocks := read.value;
    var ids: set<string> := {};
    for i := 0 to |blocks|
      invariant forall k :: 0 <= k < i ==> ValidBlock(blocks[k]) && ReferenceAllowed(blocks[k], version)
      invariant DistinctIds(blocks[..i])
      invariant forall id :: id in ids <==> exists k :: 0 <= k < i && StringOf(blocks[k], "id") == id
    {
      var block := blocks[i];
      if !ValidBlock(block) {
        return false;
      }
      if !ReferenceAllowed(block, version) {
        return false;
      }
      var id := StringOf(block, "id");
      if id in ids {
        return false;
      }
      ids := ids + {id};
    }
    assert blocks[..|blocks|] == blocks;
    return true;
  }

  datatype Op = Start | Set | Append | Error | Ping | End | Unknown(name: string)

  /** An event envelope. An absent mask is "", as in the Go struct; an absent payload is None. */
  datatype Event = Event(
    op: Op,
    seqNo: nat,
    mask: string := "",
    model: Option<Fields> := None,
    meta: Option<Fields> := None,
    block: Option<Fields> := None)

  function StartEvent(model: Fields, seqNo: nat): Event {
    Event(Start, seqNo, model := Some(model))
  }

  function EndEvent(seqNo: nat): Event {
    Event(End, seqNo)
  }

  function PingEvent(seqNo: nat): Event {
    Event(Ping, seqNo)
  }

  predicate HasRoot(mask: string, root: string) {
    HasPrefix(mask, root + ".") && |mask| > |root| + 1
  }

  /** The relative path of a mask: its segments after the root. */
  function PathOf(mask: string): (path: Path)
    requires HasDot(mask)
    ensures |path| >= 1
  {
    Split(mask)[1..]
  }

  predicate ValidFieldPatch(mask: string, block: Fields) {
    && !IsReference(block)
    && HasDot(mask)
    && PathOf(mask)[0] !in {"id", "ref"}
  }

  predicate ValidEvent(e: Event) {
    && (e.op.Start? || e.model.None?)
    && match e.op
       case Start =>
         && e.model.Some? && e.meta.None? && e.block.None? && e.mask == ""
         && ValidModel(e.model.value)
       case Set =>
         && (e.meta.None? <==> e.block.Some?)
         && if e.mask == "" then e.block.Some? && ValidBlock(e.block.value)
            else if e.block.Some? then HasRoot(e.mask, BLOCK_ROOT) && ValidFieldPatch(e.mask, e.block.value)
            else HasRoot(e.mask, META_ROOT)
       case Append =>
         && e.block.Some? && e.meta.None? && HasRoot(e.mask, BLOCK_ROOT)
         && ValidFieldPatch(e.mask, e.block.value)
       case Error =>
         && e.mask == ERROR_MASK && e.block.None?
         && e.meta.Some? && Get(e.meta.value, "error").Obj?
       case Ping => e.meta.None? && e.block.None? && e.mask == ""
       case End => e.meta.None? && e.block.None? && e.mask == ""
       case Unknown(_) => false
  }
}
