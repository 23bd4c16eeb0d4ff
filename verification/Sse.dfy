/** Server-sent events at text level (sdks/typescript/src/ui/sse.ts), and what a standard client makes of them. */
module Sse {
  import opened Json

  const LF := '\n'
  const CR := '\r'

  /** The decoder's result before the payload is parsed: the data text and the id, absent when no id line came. */
  datatype Message = Message(data: string, eventId: Option<string>)

  predicate Free(s: string, c: char) {
    forall i :: 0 <= i < |s| ==> s[i] != c
  }

  predicate NoBreaks(s: string) {
    Free(s, LF) && Free(s, CR)
  }

  /** The length of the line separator at the front: LF, CR LF, or none. A lone CR separates nothing. */
  function Separator(s: string): (n: nat)
    ensures n <= 2 && n <= |s|
  {
    if |s| >= 1 && s[0] == LF then 1
    else if |s| >= 2 && s[0] == CR && s[1] == LF then 2
    else 0
  }

  function SplitLines(s: string): (r: seq<string>)
    ensures r != []
    ensures forall i :: 0 <= i < |r| ==> Free(r[i], LF)
    decreases |s|
  {
    if s == "" then [""]
    else if Separator(s) > 0 then [""] + SplitLines(s[Separator(s)..])
    else
      var rest := SplitLines(s[1..]);
      [[s[0]] + rest[0]] + rest[1..]
  }

  function JoinLines(lines: seq<string>): string {
    if lines == [] then ""
    else if |lines| == 1 then lines[0]
    else lines[0] + [LF] + JoinLines(lines[1..])
  }

  function Prefixed(field: string, lines: seq<string>): (r: seq<string>)
    ensures |r| == |lines|
  {
    seq(|lines|, i requires 0 <= i < |lines| => field + ": " + lines[i])
  }

  function IdLines(eventId: Option<string>): seq<string> {
    if eventId.Some? then Prefixed("id", [eventId.value]) else []
  }

  /** The lines of one message. */
  function MessageLines(payload: string, eventId: Option<string>): (r: seq<string>)
    ensures r != []
  {
    IdLines(eventId) + Prefixed("data", SplitLines(payload))
  }

  /** The encoded message; None when the id would break a line. */
  function EncodeSpec(payload: string, eventId: Option<string>): Option<string> {
    if eventId.Some? && !NoBreaks(eventId.value) then None
    else Some(JoinLines(MessageLines(payload, eventId)) + [LF, LF])
  }

  method Contains(s: string, c: char) returns (found: bool)
    ensures found <==> !Free(s, c)
  {
    for i := 0 to |s|
      invariant Free(s[..i], c)
    {
      if s[i] == c {
        return true;
      }
    }
    assert s[..|s|] == s;
    return false;
  }

  /** Each loop pushes onto one growing list of lines, joined at the end. */
  method EncodeSse(payload: string, eventId: Option<string>) returns (r: Option<string>)
    ensures r == EncodeSpec(payload, eventId)
  {
    hide SplitLines, JoinLines, Prefixed;
    if eventId.Some? {
      var lf := Contains(eventId.value, LF);
      var cr := Contains(eventId.value, CR);
      if lf || cr {
        return None;
      }
    }
    var lines: seq<string> := [];
    if eventId.Some? {
      lines := lines + ["id: " + eventId.value];
      PrefixedPush("id", [], eventId.value);
      SpellPrefixes();
    }
    var pieces := SplitLines(payload);
    PrefixedNone("data");
    for i := 0 to |pieces|
      invariant lines == IdLines(eventId) + Prefixed("data", pieces[..i])
    {
      PrefixedPush("data", pieces[..i], pieces[i]);
      SpellPrefixes();
      assert pieces[..i + 1] == pieces[..i] + [pieces[i]];
      lines := lines + ["data: " + pieces[i]];
    }
    assert pieces[..|pieces|] == pieces;
    return Some(JoinLines(lines) + [LF, LF]);
  }

  lemma PrefixedNone(field: string)
    ensures Prefixed(field, []) == []
  {
  }

  lemma PrefixedPush(field: string, lines: seq<string>, line: string)
    ensures Prefixed(field, lines + [line]) == Prefixed(field, lines) + [field + ": " + line]
    ensures Prefixed(field, [line]) == [field + ": " + line]
  {
  }

  lemma SpellPrefixes()
    ensures "id" + ": " == "id: " && "data" + ": " == "data: "
  {
  }

  /** The position of the first colon, or the length when there is none. */
  function Colon(line: string): (i: nat)
    ensures i <= |line|
    ensures Free(line[..i], ':')
    ensures i < |line| ==> line[i] == ':'
  {
    if line == "" || line[0] == ':' then 0
    else
      var i := 1 + Colon(line[1..]);
      assert line[..i] == [line[0]] + line[1..][..i - 1];
      i
  }

  function FieldName(line: string): string {
    line[..Colon(line)]
  }

  function FieldValue(line: string): string {
    if Colon(line) == |line| then ""
    else if Colon(line) + 1 < |line| && line[Colon(line) + 1] == ' ' then line[Colon(line) + 2..]
    else line[Colon(line) + 1..]
  }

  /** What the decoder has gathered so far: the last id and every data value. */
  datatype Gathered = Gathered(eventId: Option<string>, data: seq<string>)

  function TakeLine(g: Gathered, line: string): Gathered {
    if line == "" || line[0] == ':' then g
    else if FieldName(line) == "id" then g.(eventId := Some(FieldValue(line)))
    else if FieldName(line) == "data" then g.(data := g.data + [FieldValue(line)])
    else g
  }

  function Gather(lines: seq<string>): Gathered
    decreases |lines|
  {
    if lines == [] then Gathered(None, [])
    else TakeLine(Gather(lines[..|lines| - 1]), lines[|lines| - 1])
  }

  /** The decoded message; None when it carries no data. */
  function DecodeSpec(message: string): Option<Message> {
    var g := Gather(SplitLines(message));
    if g.data == [] then None else Some(Message(JoinLines(g.data), g.eventId))
  }

  method DecodeSse(message: string) returns (r: Option<Message>)
    ensures r == DecodeSpec(message)
  {
    var eventId: Option<string> := None;
    var data: seq<string> := [];
    var lines := SplitLines(message);
    for i := 0 to |lines|
      invariant Gathered(eventId, data) == Gather(lines[..i])
    {
      assert lines[..i + 1][..i] == lines[..i];
      var rawLine := lines[i];
      if rawLine == "" || rawLine[0] == ':' {
        continue;
      }
      var separator := Colon(rawLine);
      var field := rawLine[..separator];
      var value := if separator == |rawLine| then "" else rawLine[separator + 1..];
      if value != "" && value[0] == ' ' {
        value := value[1..];
      }
      if field == "id" {
        eventId := Some(value);
      } else if field == "data" {
        data := data + [value];
      }
    }
    assert lines[..|lines|] == lines;
    if data == [] {
      return None;
    }
    return Some(Message(JoinLines(data), eventId));
  }
}
