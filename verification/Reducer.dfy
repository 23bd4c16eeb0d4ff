/** The reducer on values (sdks/go/ui/reducer.go, with the value semantics of sdks/python/src/agentue/apply.py). */
module Reducer {
  import opened Json
  import opened Masks
  import opened Model

  /** What applying one event leaves behind. A rejected event can still leave a changed snapshot. */
  datatype Outcome = Outcome(ok: bool, state: Fields)

  function Accept(state: Fields): Outcome {
    Outcome(true, state)
  }

  function Reject(state: Fields): Outcome {
    Outcome(false, state)
  }

  /** Strict lookup: every segment must be present. */
  function Lookup(current: Json, path: Path): (r: Option<Json>)
    decreases |path|
  {
    if path == [] then Some(current)
    else if current.Obj? && path[0] in current.fields then Lookup(current.fields[path[0]], path[1..])
    else None
  }

  /** Lookup that falls back to the flat payload shape: the last segment at the top level. */
  function ReadPath(source: Fields, path: Path): (r: Option<Json>)
    requires |path| >= 1
  {
    var found := Lookup(Obj(source), path);
    if found.Some? then found
    else if path[|path| - 1] in source then Some(source[path[|path| - 1]])
    else None
  }

  /** Writes a value at a path, replacing whatever is not an object on the way. */
  function WritePath(target: Fields, path: Path, value: Json): (r: Fields)
    requires |path| >= 1
    decreases |path|
  {
    if |path| == 1 then target[path[0] := value]
    else
      var next := Get(target, path[0]);
      var child := if next.Obj? then next.fields else map[];
      target[path[0] := Obj(WritePath(child, path[1..], value))]
  }

  /** Reading the block list of a snapshot without one gives it an empty one. */
  function EnsureBlocks(snapshot: Fields): Fields {
    if "blocks" in snapshot then snapshot else snapshot["blocks" := Arr([])]
  }

  function WithBlocks(snapshot: Fields, blocks: seq<Fields>): Fields {
    snapshot["blocks" := Arr(Wrap(blocks))]
  }

  /** The position of the first block with this id, or the length when there is none. */
  function FindBlock(blocks: seq<Fields>, id: string): (i: nat)
    ensures i <= |blocks|
    ensures i < |blocks| ==> Get(blocks[i], "id") == Str(id)
    ensures forall k :: 0 <= k < i ==> Get(blocks[k], "id") != Str(id)
  {
    if blocks == [] then 0
    else if Get(blocks[0], "id") == Str(id) then 0
    else 1 + FindBlock(blocks[1..], id)
  }

  function UpsertBlock(snapshot: Fields, block: Fields): Outcome {
    if !ValidBlock(block) then Reject(snapshot)
    else if IsReference(block) && Get(snapshot, "version") != Str(PROTOCOL_VERSION) then Reject(snapshot)
    else match BlocksOf(snapshot)
      case None => Reject(snapshot)
      case Some(blocks) =>
        var i := FindBlock(blocks, StringOf(block, "id"));
        Accept(WithBlocks(snapshot, if i < |blocks| then blocks[i := block] else blocks + [block]))
  }

  /** Concatenation of a string or list delta. Null or absent counts as empty; mixed types do not combine. */
  function AppendValue(old_: Json, added: Json): Option<Json> {
    match added
    case Str(text) =>
      if old_.Null? then Some(added) else if old_.Str? then Some(Str(old_.text + text)) else None
    case Arr(items) =>
      if old_.Null? then Some(added) else if old_.Arr? then Some(Arr(old_.items + items)) else None
    case _ => None
  }

  function AppendField(mask: string): string {
    if HasPrefix(mask, "block.") then mask[6..] else mask
  }

  function AppendByMask(snapshot: Fields, mask: string, block: Fields): Outcome {
    var field := AppendField(mask);
    var id := StringOf(block, "id");
    if field == "" || HasDot(field) || id == "" || field !in block then Reject(snapshot)
    else match BlocksOf(snapshot)
      case None => Reject(snapshot)
      case Some(blocks) =>
        var i := FindBlock(blocks, id);
        if i == |blocks| then UpsertBlock(EnsureBlocks(snapshot), block)
        else if IsReference(blocks[i]) then Reject(snapshot)
        else match AppendValue(Get(blocks[i], field), block[field])
          case None => Reject(snapshot)
          case Some(value) => Accept(WithBlocks(snapshot, blocks[i := blocks[i][field := value]]))
  }

  /** A value written into the metadata, which becomes an object if it was not one. */
  function SetMeta(snapshot: Fields, path: Path, value: Json): Fields
    requires |path| >= 1
  {
    var meta := Get(snapshot, "meta");
    snapshot["meta" := Obj(WritePath(if meta.Obj? then meta.fields else map[], path, value))]
  }

  /** A value written into the inline block with this id. */
  function SetBlock(snapshot: Fields, id: string, path: Path, value: Json): Outcome
    requires |path| >= 1
  {
    match BlocksOf(snapshot)
    case None => Reject(snapshot)
    case Some(blocks) =>
      var i := FindBlock(blocks, id);
      if i == |blocks| then Reject(EnsureBlocks(snapshot))
      else if IsReference(blocks[i]) then Reject(snapshot)
      else Accept(WithBlocks(snapshot, blocks[i := WritePath(blocks[i], path, value)]))
  }

  function SetByMask(snapshot: Fields, mask: string, source: Fields): Outcome {
    match CutAtDot(mask)
    case NoDot => Reject(snapshot)
    case Cut(root, relative) =>
      if relative == "" then Reject(snapshot)
      else
        var path := Split(relative);
        match ReadPath(source, path)
        case None => Reject(snapshot)
        case Some(value) =>
          if root == META_ROOT then Accept(SetMeta(snapshot, path, value))
          else if root == BLOCK_ROOT then SetBlock(snapshot, StringOf(source, "id"), path, value)
          else Reject(snapshot)
  }

  /** One event applied to one model. */
  function Apply(snapshot: Fields, e: Event): Outcome {
    if !ValidEvent(e) then Reject(snapshot)
    else match e.op
      case Start => Accept(e.model.value)
      case Set =>
        if e.mask == "" then UpsertBlock(snapshot, e.block.value)
        else SetByMask(snapshot, e.mask, if e.meta.Some? then e.meta.value else e.block.value)
      case Append => AppendByMask(snapshot, e.mask, e.block.value)
      case Error => SetByMask(snapshot, e.mask, e.meta.value)
      case Ping => Accept(snapshot)
      case End => Accept(snapshot)
      case Unknown(_) => Reject(snapshot)
  }

  /** Events applied in order, stopping at the first rejection. */
  function ApplyAll(snapshot: Fields, events: seq<Event>): (r: Outcome)
    decreases |events|
  {
    if events == [] then Accept(snapshot)
    else
      var init := ApplyAll(snapshot, events[..|events| - 1]);
      if init.ok then Apply(init.state, events[|events| - 1]) else init
  }
}
