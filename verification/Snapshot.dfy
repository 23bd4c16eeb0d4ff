/** The reducer as the Go package runs it: one snapshot object, changed in place. */
module SnapshotState {
  import opened Json
  import opened Masks
  import opened Model
  import R = Reducer

  /** Walks a payload along a path; anything missing on the way falls back to the flat last segment. */
  method ReadPath(source: Fields, path: Path) returns (r: Option<Json>)
    requires |path| >= 1
    ensures r == R.ReadPath(source, path)
  {
    var current := Obj(source);
    assert path[0..] == path;
    for k := 0 to |path|
      invariant R.Lookup(Obj(source), path) == R.Lookup(current, path[k..])
    {
      assert path[k..][1..] == path[k + 1..];
      if !current.Obj? || path[k] !in current.fields {
        var last := path[|path| - 1];
        return if last in source then Some(source[last]) else None;
      }
      current := current.fields[path[k]];
    }
    return Some(current);
  }

  class Snapshot {
    var fields: Fields

    constructor (fields: Fields)
      ensures this.fields == fields
    {
      this.fields := fields;
    }

    /** The block list, creating an empty one where the snapshot has none. */
    method TakeBlocks() returns (r: Option<seq<Fields>>)
      modifies this
      ensures r == BlocksOf(old(fields))
      ensures fields == R.EnsureBlocks(old(fields))
    {
      if "blocks" !in fields {
        fields := fields["blocks" := Arr([])];
        return Some([]);
      }
      if !fields["blocks"].Arr? {
        return None;
      }
      var items := fields["blocks"].items;
      var blocks: seq<Fields> := [];
      for i := 0 to |items|
        invariant |blocks| == i
        invariant forall k :: 0 <= k < i ==> items[k] == Obj(blocks[k])
      {
        if !items[i].Obj? {
          return None;
        }
        blocks := blocks + [items[i].fields];
      }
      assert Unwrap(items) == blocks;
      return Some(blocks);
    }

    /** The position of the block with this id, scanning from the front. */
    static method Find(blocks: seq<Fields>, id: string) returns (i: nat)
      ensures i == R.FindBlock(blocks, id)
    {
      i := 0;
      while i < |blocks|
        invariant i <= |blocks|
        invariant forall k :: 0 <= k < i ==> Get(blocks[k], "id") != Str(id)
      {
        if Get(blocks[i], "id") == Str(id) {
          return;
        }
        i := i + 1;
      }
    }

    method UpsertBlock(block: Fields) returns (ok: bool)
      modifies this
      ensures R.Outcome(ok, fields) == R.UpsertBlock(old(fields), block)
    {
      if !ValidBlock(block) {
        return false;
      }
      if IsReference(block) && Get(fields, "version") != Str(PROTOCOL_VERSION) {
        return false;
      }
      var taken := TakeBlocks();
      if taken.None? {
        return false;
      }
      var blocks := taken.value;
      var i := Find(blocks, StringOf(block, "id"));
      if i < |blocks| {
        blocks := blocks[i := block];
      } else {
        blocks := blocks + [block];
      }
      fields := fields["blocks" := Arr(Wrap(blocks))];
      return true;
    }

    method AppendByMask(mask: string, block: Fields) returns (ok: bool)
      modifies this
      ensures R.Outcome(ok, fields) == R.AppendByMask(old(fields), mask, block)
    {
      var field := R.AppendField(mask);
      if field == "" || HasDot(field) {
        return false;
      }
      var id := StringOf(block, "id");
      if id == "" {
        return false;
      }
      if field !in block {
        return false;
      }
      var taken := TakeBlocks();
      if taken.None? {
        return false;
      }
      var blocks := taken.value;
      var i := Find(blocks, id);
      if i < |blocks| {
        if IsReference(blocks[i]) {
          return false;
        }
        var value := R.AppendValue(Get(blocks[i], field), block[field]);
        if value.None? {
          return false;
        }
        fields := fields["blocks" := Arr(Wrap(blocks[i := blocks[i][field := value.value]]))];
        return true;
      }
      ok := UpsertBlock(block);
    }

    method SetByMask(mask: string, source: Fields) returns (ok: bool)
      modifies this
      ensures R.Outcome(ok, fields) == R.SetByMask(old(fields), mask, source)
    {
      var cut := CutAtDot(mask);
      if cut.NoDot? || cut.after == "" {
        return false;
      }
      var path := Split(cut.after);
      var read := ReadPath(source, path);
      if read.None? {
        return false;
      }
      if cut.before == META_ROOT {
        if !Get(fields, "meta").Obj? {
          fields := fields["meta" := Obj(map[])];
        }
        fields := fields["meta" := Obj(R.WritePath(fields["meta"].fields, path, read.value))];
        return true;
      }
      if cut.before == BLOCK_ROOT {
        var taken := TakeBlocks();
        if taken.None? {
          return false;
        }
        var blocks := taken.value;
        var i := Find(blocks, StringOf(source, "id"));
        if i == |blocks| {
          return false;
        }
        if IsReference(blocks[i]) {
          return false;
        }
        fields := fields["blocks" := Arr(Wrap(blocks[i := R.WritePath(blocks[i], path, read.value)]))];
        return true;
      }
      return false;
    }

    /** Applies one event. A start answers with a new snapshot; every other event changes the given one. */
    static method Apply(snapshot: Snapshot, e: Event) returns (r: Snapshot, ok: bool)
      modifies snapshot
      ensures R.Outcome(ok, r.fields) == R.Apply(old(snapshot.fields), e)
      ensures ok && e.op.Start? ==> fresh(r) && snapshot.fields == old(snapshot.fields)
      ensures !(ok && e.op.Start?) ==> r == snapshot
    {
      r, ok := snapshot, true;
      if !ValidEvent(e) {
        return snapshot, false;
      }
      match e.op {
        case Start =>
          r := new Snapshot(e.model.value);
        case Set =>
          if e.mask == "" {
            ok := snapshot.UpsertBlock(e.block.value);
          } else {
            var source := if e.meta.Some? then e.meta else e.block;
            ok := snapshot.SetByMask(e.mask, source.value);
          }
        case Append =>
          ok := snapshot.AppendByMask(e.mask, e.block.value);
        case Error =>
          ok := snapshot.SetByMask(e.mask, e.meta.value);
        case Ping =>
        case End =>
      }
    }

    /** Applies events in order and stops at the first rejection. */
    static method ApplyAll(snapshot: Snapshot, events: seq<Event>) returns (r: Snapshot, ok: bool)
      modifies snapshot
      ensures R.Outcome(ok, r.fields) == R.ApplyAll(old(snapshot.fields), events)
      ensures r == snapshot || fresh(r)
    {
      r, ok := snapshot, true;
      for i := 0 to |events|
        invariant r == snapshot || fresh(r)
        invariant R.Outcome(true, r.fields) == R.ApplyAll(old(snapshot.fields), events[..i])
      {
        assert events[..i + 1][..i] == events[..i];
        r, ok := Apply(r, events[i]);
        if !ok {
          StopEarly(old(snapshot.fields), events, i + 1);
          return;
        }
      }
      assert events[..|events|] == events;
      ok := true;
    }
  }

  /** A run rejected within a prefix has the outcome of that prefix. */
  lemma {:induction false} StopEarly(s: Fields, events: seq<Event>, k: nat)
    requires k <= |events| && !R.ApplyAll(s, events[..k]).ok
    ensures R.ApplyAll(s, events) == R.ApplyAll(s, events[..k])
    decreases |events|
  {
    if k == |events| {
      assert events[..k] == events;
    } else {
      var init := events[..|events| - 1];
      assert init[..k] == events[..k];
      StopEarly(s, init, k);
    }
  }
}
