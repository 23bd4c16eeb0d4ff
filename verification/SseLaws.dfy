/** What survives a trip through the encoder: first back through its own decoder, then through a standard client. */
module SseLaws {
  import opened Json
  import opened Sse

  /** A line as the decoder sees it when a line feed follows: one trailing CR is taken for part of the separator. */
  function Trimmed(line: string): string {
    if line != "" && line[|line| - 1] == CR then line[..|line| - 1] else line
  }

  function TrimmedAll(lines: seq<string>): (r: seq<string>)
    ensures |r| == |lines|
  {
    seq(|lines|, i requires 0 <= i < |lines| => Trimmed(lines[i]))
  }

  /** The characters around a line feed that a trip turns into one LF: at most two CRs, one to each splitting. */
  function Break(s: string): (n: nat)
    ensures n <= |s|
  {
    if |s| >= 3 && s[0] == CR && s[1] == CR && s[2] == LF then 3 else Separator(s)
  }

  /** The payload the decoder hands back, read off the payload itself. At the end of the text one CR is lost. */
  function Received(s: string): string
    decreases |s|
  {
    if s == "" then ""
    else if Break(s) > 0 then [LF] + Received(s[Break(s)..])
    else if |s| == 1 && s[0] == CR then ""
    else [s[0]] + Received(s[1..])
  }

  predicate HasCrLf(s: string) {
    exists i :: 0 <= i < |s| - 1 && s[i] == CR && s[i + 1] == LF
  }

  predicate EndsWithCr(s: string) {
    s != "" && s[|s| - 1] == CR
  }

  lemma {:induction false} SplitAtFeed(line: string, rest: string)
    requires Free(line, LF)
    ensures SplitLines(line + [LF] + rest) == [Trimmed(line)] + SplitLines(rest)
    decreases |line|
  {
    var s := line + [LF] + rest;
    if line == "" {
      assert Separator(s) == 1 && s[1..] == rest;
    } else if line == [CR] {
      assert Separator(s) == 2 && s[2..] == rest;
      assert Trimmed(line) == "";
    } else {
      assert Separator(s) == 0;
      assert s[1..] == line[1..] + [LF] + rest;
      SplitAtFeed(line[1..], rest);
      TrimmedFront(line[0], line[1..]);
      assert [line[0]] + line[1..] == line;
      PushFront(line[0], s[1..], Trimmed(line[1..]), SplitLines(rest));
    }
  }

  lemma PushFront(c: char, text: string, first: string, others: seq<string>)
    requires SplitLines(text) == [first] + others
    ensures [[c] + SplitLines(text)[0]] + SplitLines(text)[1..] == [[c] + first] + others
  {
    hide SplitLines;
  }

  lemma TrimmedHead(lines: seq<string>)
    requires lines != []
    ensures TrimmedAll(lines) + ["", ""] == [Trimmed(lines[0])] + (TrimmedAll(lines[1..]) + ["", ""])
  {
    hide Trimmed;
  }

  lemma SplitLastLine(line: string)
    requires Free(line, LF)
    ensures SplitLines(line + [LF, LF]) == [Trimmed(line), "", ""]
  {
    var blank: string := [LF];
    assert line + [LF, LF] == line + [LF] + blank;
    SplitAtFeed(line, blank);
    assert blank[1..] == "";
    assert SplitLines(blank) == ["", ""];
  }

  /** Lines written out, each ended by a line feed, and then a blank line: the decoder finds them again, trimmed. */
  lemma {:induction false} SplitJoined(lines: seq<string>)
    requires lines != [] && forall i :: 0 <= i < |lines| ==> Free(lines[i], LF)
    ensures SplitLines(JoinLines(lines) + [LF, LF]) == TrimmedAll(lines) + ["", ""]
    decreases |lines|
  {
    if |lines| == 1 {
      SplitLastLine(lines[0]);
      assert TrimmedAll(lines) == [Trimmed(lines[0])];
    } else {
      var rest := JoinLines(lines[1..]) + [LF, LF];
      assert JoinLines(lines) + [LF, LF] == lines[0] + [LF] + rest;
      SplitAtFeed(lines[0], rest);
      SplitJoined(lines[1..]);
      TrimmedHead(lines);
    }
  }

  lemma TrimmedPrefixed(field: string, line: string)
    ensures Trimmed(field + ": " + line) == field + ": " + Trimmed(line)
  {
    var whole := field + ": " + line;
    if line != "" {
      assert whole[|whole| - 1] == line[|line| - 1];
      assert whole[..|whole| - 1] == field + ": " + line[..|line| - 1];
    } else {
      assert whole == field + ": ";
      assert whole[|whole| - 1] == ' ';
    }
  }

  lemma {:induction false} ColonOf(field: string, rest: string)
    requires Free(field, ':')
    ensures Colon(field + ":" + rest) == |field|
    decreases |field|
  {
    var line := field + ":" + rest;
    if field == "" {
      assert line[0] == ':';
    } else {
      assert line[1..] == field[1..] + ":" + rest;
      ColonOf(field[1..], rest);
    }
  }

  /** A line this encoder writes reads back as its field and its value, whatever the value holds. */
  lemma ReadField(field: string, value: string)
    requires field != "" && Free(field, ':')
    ensures
      var line := field + ": " + value;
      line != "" && line[0] != ':' && FieldName(line) == field && FieldValue(line) == value
  {
    var line := field + ": " + value;
    assert line == field + ":" + (" " + value);
    ColonOf(field, " " + value);
    assert line[..|field|] == field;
    assert line[|field| + 1] == ' ';
    assert line[|field| + 2..] == value;
  }

  lemma {:induction false} GatherConcat(a: seq<string>, b: seq<string>)
    ensures
      var g, h := Gather(a), Gather(b);
      Gather(a + b) == Gathered(if h.eventId.Some? then h.eventId else g.eventId, g.data + h.data)
    decreases |b|
  {
    if b == [] {
      assert a + b == a;
    } else {
      var last := |b| - 1;
      GatherConcat(a, b[..last]);
      assert (a + b)[..|a + b| - 1] == a + b[..last];
    }
  }

  lemma GatherPush(lines: seq<string>, line: string)
    ensures Gather(lines + [line]) == TakeLine(Gather(lines), line)
  {
    hide TakeLine;
    assert (lines + [line])[..|lines|] == lines;
  }

  lemma {:induction false} GatherData(lines: seq<string>)
    ensures Gather(Prefixed("data", lines)) == Gathered(None, lines)
    decreases |lines|
  {
    if lines == [] {
      PrefixedNone("data");
    } else {
      var init, last := lines[..|lines| - 1], lines[|lines| - 1];
      assert lines == init + [last];
      GatherData(init);
      GatherDataLine(init, last);
    }
  }

  lemma GatherDataLine(init: seq<string>, last: string)
    requires Gather(Prefixed("data", init)) == Gathered(None, init)
    ensures Gather(Prefixed("data", init + [last])) == Gathered(None, init + [last])
  {
    hide Prefixed, Gather, FieldName, FieldValue;
    PrefixedPush("data", init, last);
    GatherPush(Prefixed("data", init), "data" + ": " + last);
    ReadField("data", last);
  }

  lemma GatherId(eventId: Option<string>)
    ensures Gather(IdLines(eventId)) == Gathered(eventId, [])
  {
    if eventId.Some? {
      ReadField("id", eventId.value);
      var lines := IdLines(eventId);
      assert lines[..0] == [];
      assert Gather(lines) == TakeLine(Gather(lines[..0]), lines[0]);
    }
  }

  lemma TrimmedAllPrefixed(field: string, lines: seq<string>)
    ensures TrimmedAll(Prefixed(field, lines)) == Prefixed(field, TrimmedAll(lines))
  {
    hide Trimmed;
    forall i | 0 <= i < |lines| ensures Trimmed(Prefixed(field, lines)[i]) == Prefixed(field, TrimmedAll(lines))[i] {
      TrimmedPrefixed(field, lines[i]);
    }
  }

  lemma TrimmedConcat(a: seq<string>, b: seq<string>)
    ensures TrimmedAll(a + b) == TrimmedAll(a) + TrimmedAll(b)
  {
    hide Trimmed;
  }

  lemma TrimmedId(eventId: Option<string>)
    requires eventId.Some? ==> NoBreaks(eventId.value)
    ensures TrimmedAll(IdLines(eventId)) == IdLines(eventId)
  {
    if eventId.Some? {
      TrimmedAllPrefixed("id", [eventId.value]);
      assert Trimmed(eventId.value) == eventId.value;
      assert TrimmedAll([eventId.value]) == [eventId.value];
    }
  }

  lemma TrimmedMessage(payload: string, eventId: Option<string>)
    requires eventId.Some? ==> NoBreaks(eventId.value)
    ensures TrimmedAll(MessageLines(payload, eventId))
      == IdLines(eventId) + Prefixed("data", TrimmedAll(SplitLines(payload)))
  {
    hide TrimmedAll, Prefixed, IdLines, SplitLines;
    TrimmedConcat(IdLines(eventId), Prefixed("data", SplitLines(payload)));
    TrimmedId(eventId);
    TrimmedAllPrefixed("data", SplitLines(payload));
  }

  lemma MessageLinesHaveNoFeeds(payload: string, eventId: Option<string>)
    requires eventId.Some? ==> NoBreaks(eventId.value)
    ensures forall i :: 0 <= i < |MessageLines(payload, eventId)| ==> Free(MessageLines(payload, eventId)[i], LF)
  {
  }

  lemma GatherBlanks()
    ensures Gather(["", ""]) == Gathered(None, [])
  {
    assert ["", ""][..1] == [""];
    assert [""][..0] == [];
    assert Gather([""]) == TakeLine(Gather([]), "");
  }

  lemma DecodedLines(payload: string, eventId: Option<string>)
    requires eventId.Some? ==> NoBreaks(eventId.value)
    ensures Gather(TrimmedAll(MessageLines(payload, eventId)) + ["", ""])
         == Gathered(eventId, TrimmedAll(SplitLines(payload)))
  {
    var data := Prefixed("data", TrimmedAll(SplitLines(payload)));
    TrimmedMessage(payload, eventId);
    GatherBlanks();
    GatherId(eventId);
    GatherData(TrimmedAll(SplitLines(payload)));
    GatherConcat(IdLines(eventId), data);
    GatherConcat(IdLines(eventId) + data, ["", ""]);
  }

  lemma JoinPush(c: char, lines: seq<string>)
    requires lines != []
    ensures JoinLines([[c] + lines[0]] + lines[1..]) == [c] + JoinLines(lines)
  {
    var pushed := [[c] + lines[0]] + lines[1..];
    assert pushed[1..] == lines[1..];
  }

  lemma JoinBlank(lines: seq<string>)
    requires lines != []
    ensures JoinLines([""] + lines) == [LF] + JoinLines(lines)
  {
    assert ([""] + lines)[1..] == lines;
  }

  /** An empty first line means the text is empty or starts with a separator. */
  lemma FirstLine(s: string)
    ensures SplitLines(s)[0] == "" <==> s == "" || Separator(s) > 0
  {
  }

  /** The two splittings together leave exactly the Received text. */
  lemma {:induction false} TrimmedIsReceived(s: string)
    ensures JoinLines(TrimmedAll(SplitLines(s))) == Received(s)
    decreases |s|
  {
    hide JoinLines;
    if s == "" || (|s| == 1 && s[0] == CR) {
      JoinsToNothing(s);
    } else if Separator(s) > 0 {
      TrimmedIsReceived(s[Separator(s)..]);
      TrimmedBreak(s, s[Separator(s)..]);
    } else if s[0] == CR && Separator(s[1..]) > 0 {
      assert Break(s) == 3 && s[1..][2..] == s[3..];
      TrimmedIsReceived(s[3..]);
      LostCr(s);
    } else {
      TrimmedIsReceived(s[1..]);
      TrimmedPush(s);
      assert Break(s) == 0;
    }
  }

  lemma JoinsToNothing(s: string)
    requires s == "" || (|s| == 1 && s[0] == CR)
    ensures JoinLines(TrimmedAll(SplitLines(s))) == ""
  {
    assert s != "" ==> s[1..] == "" && SplitLines(s[1..]) == [""];
    assert |SplitLines(s)| == 1;
    assert Trimmed(SplitLines(s)[0]) == "";
  }

  lemma TrimmedBreak(s: string, rest: string)
    requires SplitLines(s) == [""] + SplitLines(rest)
    ensures JoinLines(TrimmedAll(SplitLines(s))) == [LF] + JoinLines(TrimmedAll(SplitLines(rest)))
  {
    hide SplitLines;
    assert TrimmedAll(SplitLines(s)) == [""] + TrimmedAll(SplitLines(rest));
    JoinBlank(TrimmedAll(SplitLines(rest)));
  }

  /** A character the trimming leaves alone goes in front of the first line. */
  lemma TrimmedPush(s: string)
    requires s != "" && Separator(s) == 0 && (s[0] == CR ==> s[1..] != "" && Separator(s[1..]) == 0)
    ensures JoinLines(TrimmedAll(SplitLines(s))) == [s[0]] + JoinLines(TrimmedAll(SplitLines(s[1..])))
  {
    var rest := SplitLines(s[1..]);
    FirstLine(s[1..]);
    TrimmedFront(s[0], rest[0]);
    PushTrimmed(s[0], rest);
    JoinPush(s[0], TrimmedAll(rest));
  }

  lemma TrimmedFront(c: char, line: string)
    requires c == CR ==> line != ""
    ensures Trimmed([c] + line) == [c] + Trimmed(line)
  {
    if line != "" {
      assert ([c] + line)[|line|] == line[|line| - 1];
      assert ([c] + line)[..|line|] == [c] + line[..|line| - 1];
    }
  }

  lemma PushTrimmed(c: char, lines: seq<string>)
    requires lines != [] && Trimmed([c] + lines[0]) == [c] + Trimmed(lines[0])
    ensures TrimmedAll([[c] + lines[0]] + lines[1..]) == [[c] + TrimmedAll(lines)[0]] + TrimmedAll(lines)[1..]
  {
    hide Trimmed;
  }

  lemma LostCr(s: string)
    requires s != "" && s[0] == CR && Separator(s) == 0 && Separator(s[1..]) == 2 && s[1..][2..] == s[3..]
    ensures JoinLines(TrimmedAll(SplitLines(s))) == [LF] + JoinLines(TrimmedAll(SplitLines(s[3..])))
  {
    hide JoinLines;
    var rest := SplitLines(s[3..]);
    assert SplitLines(s[1..]) == [""] + rest;
    assert [CR] + "" == [CR];
    assert SplitLines(s) == [[CR]] + rest;
    TrimmedCr(rest);
    JoinBlank(TrimmedAll(rest));
  }

  lemma TrimmedCr(rest: seq<string>)
    ensures TrimmedAll([[CR]] + rest) == [""] + TrimmedAll(rest)
  {
    assert Trimmed([CR]) == "";
  }

  lemma {:induction false} ReceivedLength(s: string)
    ensures |Received(s)| <= |s|
    ensures HasCrLf(s) || EndsWithCr(s) ==> |Received(s)| < |s|
    decreases |s|
  {
    if s == "" || (|s| == 1 && s[0] == CR) {
    } else if Break(s) > 1 {
      ReceivedLength(s[Break(s)..]);
    } else {
      ReceivedLength(s[1..]);
      if HasCrLf(s) {
        var i :| 0 <= i < |s| - 1 && s[i] == CR && s[i + 1] == LF;
        var j := i - 1;
        assert s[1..][j] == CR && s[1..][j + 1] == LF;
      }
      if EndsWithCr(s) {
        assert s[1..][|s| - 2] == CR;
      }
    }
  }

  lemma TailStaysClean(s: string)
    requires s != "" && !HasCrLf(s) && !EndsWithCr(s)
    ensures !HasCrLf(s[1..]) && !EndsWithCr(s[1..])
    ensures s[0] == CR ==> |s| >= 2 && s[1] != LF
    ensures |s| >= 3 && s[1] == CR ==> s[2] != LF
  {
    var rest := s[1..];
    forall i | 0 <= i < |rest| - 1 ensures rest[i] == CR ==> rest[i + 1] != LF {
      assert rest[i] == s[i + 1] && rest[i + 1] == s[i + 1 + 1];
    }
    if s[0] == CR && |s| >= 2 {
      assert s[0 + 1] != LF;
    }
    if |s| >= 3 && s[1] == CR {
      assert s[1 + 1] != LF;
    }
  }

  lemma {:induction false} ReceivedUnchanged(s: string)
    requires !HasCrLf(s) && !EndsWithCr(s)
    ensures Received(s) == s
    decreases |s|
  {
    if s != "" {
      TailStaysClean(s);
      ReceivedUnchanged(s[1..]);
      hide HasCrLf;
      assert Break(s) <= 1;
      assert [s[0]] + s[1..] == s;
    }
  }

  /**
   * The round trip, for every payload and every id. Encoding is refused exactly for an id with a line break; otherwise
   * decoding gives back the very id, be it empty, spaced or full of colons, and the payload exactly when it has no
   * CR LF and does not end in CR. A payload without CR always comes back.
   */
  lemma RoundTrip(payload: string, eventId: Option<string>)
    ensures EncodeSpec(payload, eventId).None? <==> eventId.Some? && !NoBreaks(eventId.value)
    ensures EncodeSpec(payload, eventId).Some? ==>
      DecodeSpec(EncodeSpec(payload, eventId).value) == Some(Message(Received(payload), eventId))
    ensures Received(payload) == payload <==> !HasCrLf(payload) && !EndsWithCr(payload)
    ensures Free(payload, CR) ==> Received(payload) == payload
  {
    ReceivedLength(payload);
    if !HasCrLf(payload) && !EndsWithCr(payload) {
      ReceivedUnchanged(payload);
    }
    if EncodeSpec(payload, eventId).Some? {
      MessageLinesHaveNoFeeds(payload, eventId);
      SplitJoined(MessageLines(payload, eventId));
      DecodedLines(payload, eventId);
      TrimmedIsReceived(payload);
    }
  }

  /** A JSON text with a CR LF in its whitespace comes back with a bare LF. */
  lemma CrLfIsLost()
    ensures DecodeSpec(EncodeSpec(['{', CR, LF, '}'], None).GetOr("")) == Some(Message(['{', LF, '}'], None))
  {
    var s := ['{', CR, LF, '}'];
    RoundTrip(s, None);
    calc {
      Received(s);
      { assert Break(s) == 0 && s[1..] == [CR, LF, '}']; }
      ['{'] + Received([CR, LF, '}']);
      { assert Break([CR, LF, '}']) == 2 && [CR, LF, '}'][2..] == ['}']; }
      ['{'] + ([LF] + Received(['}']));
      { assert ['}'][1..] == ""; }
      ['{', LF, '}'];
    }
  }

  // ---------------------------------------------------------------------------------------------
  // Any message, whoever wrote it

  /** A line that names a field and gives it a value: one space after the colon is dropped, and the colon may lack. */
  predicate Says(line: string, field: string, value: string) {
    && field != "" && Free(field, ':')
    && (|| line == field + ": " + value
        || (line == field + ":" + value && (value == "" || value[0] != ' '))
        || (line == field && value == ""))
  }

  predicate Silent(line: string) {
    line == "" || line[0] == ':'
  }

  lemma NoColon(field: string)
    requires Free(field, ':')
    ensures Colon(field) == |field|
  {
  }

  lemma SaidIsRead(line: string, field: string, value: string)
    requires Says(line, field, value)
    ensures !Silent(line) && FieldName(line) == field && FieldValue(line) == value
  {
    if line == field {
      NoColon(field);
      assert line[..|field|] == field;
    } else if line == field + ": " + value {
      ReadField(field, value);
    } else {
      ColonOf(field, value);
      assert line[..|field|] == field && line[|field| + 1..] == value;
    }
  }

  lemma ReadIsSaid(line: string)
    requires !Silent(line)
    ensures Says(line, FieldName(line), FieldValue(line))
  {
    var i := Colon(line);
    if i == |line| {
      assert line[..i] == line;
    } else {
      assert line == line[..i] + ":" + line[i + 1..];
      if i + 1 < |line| && line[i + 1] == ' ' {
        assert line == line[..i] + ": " + line[i + 2..];
      }
    }
  }

  /**
   * What one more line adds to a message: a data line one more value, an id line the id, whatever came before; a blank
   * line, a comment or another field nothing. Every line is of one of these kinds.
   */
  lemma LineMeans(lines: seq<string>, line: string, field: string, value: string)
    ensures !Silent(line) ==> exists f, v :: Says(line, f, v)
    ensures
      var before, after := Gather(lines), Gather(lines + [line]);
      && (Silent(line) ==> after == before)
      && (Says(line, field, value) ==>
        && after.data == (if field == "data" then before.data + [value] else before.data)
        && after.eventId == (if field == "id" then Some(value) else before.eventId))
  {
    GatherPush(lines, line);
    if !Silent(line) {
      ReadIsSaid(line);
    }
    if Says(line, field, value) {
      SaidIsRead(line, field, value);
    }
  }

  lemma {:induction false} SplitOneLine(line: string)
    requires Free(line, LF)
    ensures SplitLines(line) == [line]
    decreases |line|
  {
    if line != "" {
      SplitOneLine(line[1..]);
      assert [line[0]] + line[1..] == line;
    }
  }

  lemma TrimmedClean(line: string)
    requires NoBreaks(line)
    ensures Trimmed(line) == line
  {
  }

  lemma {:induction false} SplitClean(lines: seq<string>)
    requires lines != [] && forall i :: 0 <= i < |lines| ==> NoBreaks(lines[i])
    ensures SplitLines(JoinLines(lines)) == lines
  {
    if |lines| == 1 {
      SplitOneLine(lines[0]);
    } else {
      SplitClean(lines[1..]);
      SplitAtFeed(lines[0], JoinLines(lines[1..]));
      TrimmedClean(lines[0]);
      assert lines == [lines[0]] + lines[1..];
    }
  }

  /** A message of any lines decodes to its data values joined and its last id, and to nothing without a data line. */
  lemma DecodeMeans(lines: seq<string>)
    requires lines != [] && forall i :: 0 <= i < |lines| ==> NoBreaks(lines[i])
    ensures
      var g := Gather(lines);
      DecodeSpec(JoinLines(lines)) == if g.data == [] then None else Some(Message(JoinLines(g.data), g.eventId))
  {
    SplitClean(lines);
  }
}
