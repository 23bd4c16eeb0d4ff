/** JSON values, as the reducers see them after decoding, and the dotted masks that address them. */
module Json {
  datatype Option<+T> = None | Some(value: T) {
    function GetOr(default_: T): T {
      if Some? then value else default_
    }
  }

  /** A decoded JSON value. Numbers keep their literal text. */
  datatype Json =
    | Null
    | Bool(b: bool)
    | Num(literal: string)
    | Str(text: string)
    | Arr(items: seq<Json>)
    | Obj(fields: Fields)

  type Fields = map<string, Json>

  /** Indexing a decoded object: an absent key reads as null. */
  function Get(o: Fields, key: string): Json {
    if key in o then o[key] else Null
  }

  /** A string-typed read: anything that is not a string reads as "". */
  function StringOf(o: Fields, key: string): string {
    if Get(o, key).Str? then Get(o, key).text else ""
  }

  predicate AllObjects(items: seq<Json>) {
    forall i :: 0 <= i < |items| ==> items[i].Obj?
  }

  function Unwrap(items: seq<Json>): (r: seq<Fields>)
    requires AllObjects(items)
  {
    seq(|items|, i requires 0 <= i < |items| => items[i].fields)
  }

  function Wrap(objects: seq<Fields>): (r: seq<Json>) {
    seq(|objects|, i requires 0 <= i < |objects| => Obj(objects[i]))
  }

  lemma UnwrapWrap(objects: seq<Fields>)
    ensures AllObjects(Wrap(objects)) && Unwrap(Wrap(objects)) == objects
  {
    assert |Unwrap(Wrap(objects))| == |objects|;
  }

  /** A map with two members holding two distinct keys holds nothing else. */
  lemma TwoKeys<V>(m: map<string, V>, a: string, b: string)
    requires a in m && b in m && a != b
    ensures |m| == 2 <==> m.Keys == {a, b}
  {
    var rest := m.Keys - {a, b};
    assert m.Keys == rest + {a, b};
    assert |m| == |m.Keys| == |rest| + 2;
    if |m| == 2 {
      assert rest == {};
    }
  }
}
