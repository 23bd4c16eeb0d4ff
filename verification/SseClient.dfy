/**
 * A client that follows section 9.2.6 of the WHATWG HTML Living Standard ("Interpreting an event stream"), reading
 * the concatenation of encoded messages.
 */
module SseClient {
  import opened Json
  import opened Sse
  import opened SseLaws

  const NUL := '\0'

  datatype Sent = Sent(payload: string, eventId: Option<string>)

  /** What the client hands to its listeners. */
  datatype Dispatch = Dispatch(data: string, lastEventId: string)

  /** The complete lines of a stream: CR LF, LF and a lone CR each end one. What follows the last end is discarded. */
  function TextLines(s: string, partial: string): seq<string>
    decreases |s|
  {
    if s == "" then []
    else if Separator(s) > 0 then [partial] + TextLines(s[Separator(s)..], "")
    else if s[0] == CR then [partial] + TextLines(s[1..], "")
    else TextLines(s[1..], partial + [s[0]])
  }

  /** The data buffer grows by a value and a line feed; a blank line dispatches it without its last line feed. */
  function Interpret(lines: seq<string>, buffer: string, id: string): seq<Dispatch>
    decreases |lines|
  {
    if lines == [] then []
    else
      var line, rest := lines[0], lines[1..];
      if line == "" then
        if buffer == "" then Interpret(rest, "", id)
        else [Dispatch(buffer[..|buffer| - 1], id)] + Interpret(rest, "", id)
      else if line[0] == ':' then Interpret(rest, buffer, id)
      else if FieldName(line) == "data" then Interpret(rest, buffer + FieldValue(line) + [LF], id)
      else if FieldName(line) == "id" && Free(FieldValue(line), NUL) then Interpret(rest, buffer, FieldValue(line))
      else Interpret(rest, buffer, id)
  }

  function Client(stream: string): seq<Dispatch> {
    Interpret(TextLines(stream, ""), "", "")
  }

  predicate Encodable(ms: seq<Sent>) {
    forall i :: 0 <= i < |ms| ==> EncodeSpec(ms[i].payload, ms[i].eventId).Some?
  }

  function Stream(ms: seq<Sent>): string {
    if ms == [] then ""
    else EncodeSpec(ms[0].payload, ms[0].eventId).GetOr("") + Stream(ms[1..])
  }

  /** The messages themselves: each payload, under the latest id sent. */
  function Expected(ms: seq<Sent>, id: string): (r: seq<Dispatch>)
    ensures |r| == |ms|
  {
    if ms == [] then []
    else
      var latest := ms[0].eventId.GetOr(id);
      [Dispatch(ms[0].payload, latest)] + Expected(ms[1..], latest)
  }

  predicate Portable(m: Sent) {
    Free(m.payload, CR) && (m.eventId.Some? ==> Free(m.eventId.value, NUL))
  }

  lemma {:induction false} ReadLine(line: string, rest: string, partial: string)
    requires NoBreaks(line)
    ensures TextLines(line + [LF] + rest, partial) == [partial + line] + TextLines(rest, "")
    decreases |line|
  {
    var s := line + [LF] + rest;
    if line == "" {
      assert s[1..] == rest;
      assert partial + line == partial;
    } else {
      assert s[1..] == line[1..] + [LF] + rest;
      ReadLine(line[1..], rest, partial + [line[0]]);
      assert partial + [line[0]] + line[1..] == partial + line;
    }
  }

  lemma {:induction false} ReadLastLine(line: string, rest: string)
    requires NoBreaks(line)
    ensures TextLines(line + [LF, LF] + rest, "") == [line] + ([""] + TextLines(rest, ""))
  {
    hide TextLines;
    var blank := [LF] + rest;
    assert line + [LF, LF] + rest == line + [LF] + blank;
    assert blank == "" + [LF] + rest;
    ReadLine(line, blank, "");
    ReadLine("", rest, "");
    assert "" + line == line && "" + "" == "";
    assert TextLines(blank, "") == [""] + TextLines(rest, "");
  }

  lemma JoinSingle(lines: seq<string>)
    requires |lines| == 1
    ensures JoinLines(lines) == lines[0]
  {
  }

  lemma JoinHead(lines: seq<string>, rest: string)
    requires |lines| > 1
    ensures JoinLines(lines) + [LF, LF] + rest == lines[0] + [LF] + (JoinLines(lines[1..]) + [LF, LF] + rest)
  {
  }

  lemma {:induction false} ReadLines(lines: seq<string>, rest: string)
    requires lines != [] && forall i :: 0 <= i < |lines| ==> NoBreaks(lines[i])
    ensures TextLines(JoinLines(lines) + [LF, LF] + rest, "") == lines + ([""] + TextLines(rest, ""))
    decreases |lines|
  {
    hide TextLines, JoinLines;
    var after := [""] + TextLines(rest, "");
    if |lines| == 1 {
      JoinSingle(lines);
      ReadLastLine(lines[0], rest);
      assert lines == [lines[0]];
    } else {
      var later := JoinLines(lines[1..]) + [LF, LF] + rest;
      JoinHead(lines, rest);
      ReadLine(lines[0], later, "");
      ReadLines(lines[1..], rest);
      assert "" + lines[0] == lines[0];
      assert lines + after == [lines[0]] + (lines[1..] + after);
    }
  }

  lemma {:induction false} JoinSplit(s: string)
    requires Free(s, CR)
    ensures JoinLines(SplitLines(s)) == s
    ensures forall i :: 0 <= i < |SplitLines(s)| ==> NoBreaks(SplitLines(s)[i])
    decreases |s|
  {
    if s != "" {
      JoinSplit(s[1..]);
      var rest := SplitLines(s[1..]);
      if s[0] == LF {
        JoinBlank(rest);
      } else {
        JoinPush(s[0], rest);
      }
    }
  }

  lemma InterpretDataLine(line: string, rest: seq<string>, buffer: string, id: string)
    ensures Interpret(["data" + ": " + line] + rest, buffer, id) == Interpret(rest, buffer + line + [LF], id)
  {
    ReadField("data", line);
    assert (["data" + ": " + line] + rest)[1..] == rest;
  }

  lemma PrefixedHead(lines: seq<string>, rest: seq<string>)
    requires lines != []
    ensures Prefixed("data", lines) + rest == ["data" + ": " + lines[0]] + (Prefixed("data", lines[1..]) + rest)
  {
  }

  lemma {:induction false} InterpretData(lines: seq<string>, rest: seq<string>, buffer: string, id: string)
    requires lines != []
    ensures Interpret(Prefixed("data", lines) + rest, buffer, id)
      == Interpret(rest, buffer + JoinLines(lines) + [LF], id)
    decreases |lines|
  {
    hide Interpret, Prefixed;
    var grown := buffer + lines[0] + [LF];
    PrefixedHead(lines, rest);
    InterpretDataLine(lines[0], Prefixed("data", lines[1..]) + rest, buffer, id);
    if |lines| == 1 {
      PrefixedNone("data");
      assert lines[1..] == [] && [] + rest == rest;
    } else {
      InterpretData(lines[1..], rest, grown, id);
      assert grown + JoinLines(lines[1..]) + [LF] == buffer + JoinLines(lines) + [LF];
    }
  }

  lemma InterpretId(eventId: Option<string>, rest: seq<string>, id: string)
    requires eventId.Some? ==> Free(eventId.value, NUL)
    ensures Interpret(IdLines(eventId) + rest, "", id) == Interpret(rest, "", eventId.GetOr(id))
  {
    var all := IdLines(eventId) + rest;
    if eventId.Some? {
      ReadField("id", eventId.value);
      assert all[0] == "id" + ": " + eventId.value;
      assert all[1..] == rest;
    } else {
      assert all == rest;
    }
  }

  lemma InterpretMessage(m: Sent, rest: seq<string>, id: string)
    requires Portable(m)
    ensures
      var latest := m.eventId.GetOr(id);
      Interpret(MessageLines(m.payload, m.eventId) + ([""] + rest), "", id)
        == [Dispatch(m.payload, latest)] + Interpret(rest, "", latest)
  {
    var latest, pieces, blank := m.eventId.GetOr(id), SplitLines(m.payload), [""] + rest;
    assert MessageLines(m.payload, m.eventId) + blank == IdLines(m.eventId) + (Prefixed("data", pieces) + blank);
    InterpretId(m.eventId, Prefixed("data", pieces) + blank, id);
    InterpretData(pieces, blank, "", latest);
    JoinSplit(m.payload);
    InterpretBlank(m.payload, rest, latest);
  }

  lemma InterpretBlank(payload: string, rest: seq<string>, id: string)
    ensures Interpret([""] + rest, "" + payload + [LF], id) == [Dispatch(payload, id)] + Interpret(rest, "", id)
  {
    var buffer := "" + payload + [LF];
    assert buffer[..|buffer| - 1] == payload;
    assert ([""] + rest)[1..] == rest;
  }

  predicate Unbroken(lines: seq<string>) {
    forall i :: 0 <= i < |lines| ==> NoBreaks(lines[i])
  }

  lemma PrefixedUnbroken(field: string, lines: seq<string>)
    requires NoBreaks(field) && Unbroken(lines)
    ensures Unbroken(Prefixed(field, lines))
  {
    forall i | 0 <= i < |lines| ensures NoBreaks(Prefixed(field, lines)[i]) {
      var line := lines[i];
      assert NoBreaks(line) && Prefixed(field, lines)[i] == field + ": " + line;
    }
  }

  lemma UnbrokenConcat(a: seq<string>, b: seq<string>)
    requires Unbroken(a) && Unbroken(b)
    ensures Unbroken(a + b)
  {
    hide NoBreaks;
  }

  lemma MessageHasNoBreaks(m: Sent)
    requires Portable(m) && EncodeSpec(m.payload, m.eventId).Some?
    ensures Unbroken(MessageLines(m.payload, m.eventId))
  {
    JoinSplit(m.payload);
    assert NoBreaks("id") && NoBreaks("data");
    hide SplitLines, Prefixed;
    PrefixedUnbroken("data", SplitLines(m.payload));
    if m.eventId.Some? {
      PrefixedUnbroken("id", [m.eventId.value]);
    }
    UnbrokenConcat(IdLines(m.eventId), Prefixed("data", SplitLines(m.payload)));
  }

  lemma {:induction false} PortableReceived(ms: seq<Sent>, id: string)
    requires Encodable(ms) && forall i :: 0 <= i < |ms| ==> Portable(ms[i])
    ensures Interpret(TextLines(Stream(ms), ""), "", id) == Expected(ms, id)
    decreases |ms|
  {
    if ms != [] {
      var m := ms[0];
      hide MessageLines, Interpret, TextLines;
      MessageHasNoBreaks(m);
      ReadLines(MessageLines(m.payload, m.eventId), Stream(ms[1..]));
      InterpretMessage(m, TextLines(Stream(ms[1..]), ""), id);
      PortableReceived(ms[1..], m.eventId.GetOr(id));
    } else {
      assert TextLines("", "") == [];
    }
  }

  lemma {:induction false} LinesHaveNoCr(s: string, partial: string)
    requires Free(partial, CR)
    ensures forall i :: 0 <= i < |TextLines(s, partial)| ==> Free(TextLines(s, partial)[i], CR)
    decreases |s|
  {
    if s != "" {
      if Separator(s) > 0 {
        LinesHaveNoCr(s[Separator(s)..], "");
      } else if s[0] == CR {
        LinesHaveNoCr(s[1..], "");
      } else {
        LinesHaveNoCr(s[1..], partial + [s[0]]);
      }
    }
  }

  predicate Readable(d: Dispatch) {
    Free(d.data, CR) && Free(d.lastEventId, NUL)
  }

  lemma {:induction false} DispatchesAreReadable(lines: seq<string>, buffer: string, id: string)
    requires forall i :: 0 <= i < |lines| ==> Free(lines[i], CR)
    requires Free(buffer, CR) && Free(id, NUL)
    ensures forall i :: 0 <= i < |Interpret(lines, buffer, id)| ==> Readable(Interpret(lines, buffer, id)[i])
    decreases |lines|
  {
    if lines != [] {
      var line, rest := lines[0], lines[1..];
      if line == "" {
        DispatchesAreReadable(rest, "", id);
      } else if line[0] == ':' {
        DispatchesAreReadable(rest, buffer, id);
      } else if FieldName(line) == "data" {
        DispatchesAreReadable(rest, buffer + FieldValue(line) + [LF], id);
      } else if FieldName(line) == "id" && Free(FieldValue(line), NUL) {
        DispatchesAreReadable(rest, buffer, FieldValue(line));
      } else {
        DispatchesAreReadable(rest, buffer, id);
      }
    }
  }

  lemma {:induction false} ReadableExpected(ms: seq<Sent>, id: string)
    requires forall i :: 0 <= i < |ms| ==> Readable(Expected(ms, id)[i])
    ensures forall i :: 0 <= i < |ms| ==> Portable(ms[i])
    decreases |ms|
  {
    if ms != [] {
      var latest := ms[0].eventId.GetOr(id);
      assert Readable(Expected(ms, id)[0]);
      forall i | 0 <= i < |ms[1..]| ensures Readable(Expected(ms[1..], latest)[i]) {
        assert Expected(ms, id)[i + 1] == Expected(ms[1..], latest)[i];
      }
      ReadableExpected(ms[1..], latest);
      assert forall i :: 1 <= i < |ms| ==> ms[i] == ms[1..][i - 1];
    }
  }

  /**
   * A standard client reading any stream of encoded messages dispatches exactly those messages, each under the latest
   * id sent, if and only if no payload holds a CR and no id holds a NUL. The encoder lets both through.
   */
  lemma {:induction false} ClientReceivesExactly(ms: seq<Sent>)
    requires Encodable(ms)
    ensures Client(Stream(ms)) == Expected(ms, "") <==> forall i :: 0 <= i < |ms| ==> Portable(ms[i])
  {
    if forall i :: 0 <= i < |ms| ==> Portable(ms[i]) {
      PortableReceived(ms, "");
    } else if Client(Stream(ms)) == Expected(ms, "") {
      LinesHaveNoCr(Stream(ms), "");
      DispatchesAreReadable(TextLines(Stream(ms), ""), "", "");
      ReadableExpected(ms, "");
    }
  }
}
