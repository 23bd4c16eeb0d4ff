/** Reading JSON text, by sections 6 and 7 of RFC 8259, whatever wrote it. */
module JsonReader {
  import opened Json
  import opened Utf8

  /** What is read from the front of a text, and the text behind it. */
  datatype Read<T> = Read(value: T, rest: Bytes) | Malformed

  function HexValue(b: Byte): (d: Option<nat>)
    ensures d.Some? ==> d.value < 0x10
  {
    if 0x30 <= b <= 0x39 then Some(b as int - 0x30)
    else if 0x61 <= b <= 0x66 then Some(b as int - 0x57)
    else if 0x41 <= b <= 0x46 then Some(b as int - 0x37)
    else None
  }

  /** The value of two digits. */
  function HexPair(high: Byte, low: Byte): (b: Option<Byte>) {
    if HexValue(high).Some? && HexValue(low).Some?
    then Some(0x10 * HexValue(high).value + HexValue(low).value)
    else None
  }

  /** Bytes written as two digits each. */
  function HexBytes(t: Bytes): (r: Option<Bytes>) {
    if t == [] then Some([])
    else if |t| == 1 then None
    else
      var first, rest := HexPair(t[0], t[1]), HexBytes(t[2..]);
      if first.Some? && rest.Some? then Some([first.value] + rest.value) else None
  }

  /** The code unit that four digits name. */
  function CodeUnit(t: Bytes): (c: Option<nat>)
    requires |t| == 4
    ensures c.Some? ==> c.value < 0x1_0000
  {
    var high, low := HexPair(t[0], t[1]), HexPair(t[2], t[3]);
    if high.Some? && low.Some? then Some(0x100 * high.value + low.value) else None
  }

  /** The character that a letter after a backslash stands for. */
  function Named(letter: Byte): (b: Option<Byte>) {
    match letter
    case 0x22 => Some(0x22)
    case 0x5C => Some(0x5C)
    case 0x2F => Some(0x2F)
    case 0x62 => Some(0x08)
    case 0x66 => Some(0x0C)
    case 0x6E => Some(0x0A)
    case 0x72 => Some(0x0D)
    case 0x74 => Some(0x09)
    case _ => None
  }

  /** An escape, behind its backslash. Halves of surrogate pairs are not read. */
  function ReadEscape(t: Bytes): (r: Read<Bytes>)
    ensures r.Read? ==> |r.rest| < |t|
  {
    if t == [] then Malformed
    else if t[0] == 0x75 then
      if |t| < 5 then Malformed
      else
        var code := CodeUnit(t[1..5]);
        if code.Some? && (code.value < 0xD800 || 0xE000 <= code.value)
        then Read(EncodeScalar(code.value), t[5..])
        else Malformed
    else
      var named := Named(t[0]);
      if named.Some? then Read([named.value], t[1..]) else Malformed
  }

  function After<T>(head: seq<T>, r: Read<seq<T>>): Read<seq<T>> {
    if r.Read? then Read(head + r.value, r.rest) else Malformed
  }

  /** A string behind its opening quote: up to the first quote that no backslash escapes, with escapes undone. */
  function ReadBody(t: Bytes): (r: Read<Bytes>)
    decreases |t|
  {
    if t == [] then Malformed
    else if t[0] == 0x22 then Read([], t[1..])
    else if t[0] == 0x5C then
      var escape := ReadEscape(t[1..]);
      if escape.Read? then After(escape.value, ReadBody(escape.rest)) else Malformed
    else if t[0] < 0x20 then Malformed
    else After([t[0]], ReadBody(t[1..]))
  }

  function ReadString(t: Bytes): (r: Read<Bytes>) {
    if t != [] && t[0] == 0x22 then ReadBody(t[1..]) else Malformed
  }

  predicate Digit(b: Byte) {
    0x30 <= b <= 0x39
  }

  function DigitValue(b: Byte): (d: nat)
    requires Digit(b)
  {
    b as int - 0x30
  }

  /** How many digits there are at the front. */
  function Digits(t: Bytes): (n: nat)
    ensures n <= |t|
    ensures forall i :: 0 <= i < n ==> Digit(t[i])
  {
    if t == [] || !Digit(t[0]) then 0 else 1 + Digits(t[1..])
  }

  function Number(digits: Bytes): (n: nat)
    requires forall i :: 0 <= i < |digits| ==> Digit(digits[i])
  {
    if digits == [] then 0 else 10 * Number(digits[..|digits| - 1]) + DigitValue(digits[|digits| - 1])
  }

  /** A number without fraction or exponent; a zero is not followed by further digits. */
  function ReadNat(t: Bytes): (r: Read<nat>) {
    var n := Digits(t);
    if n == 0 || (n > 1 && t[0] == 0x30) then Malformed else Read(Number(t[..n]), t[n..])
  }

  /** A number that may be negative. */
  function ReadInt(t: Bytes): (r: Read<int>) {
    if t != [] && t[0] == 0x2D then
      match ReadNat(t[1..])
      case Read(n, rest) => Read(-(n as int), rest)
      case Malformed => Malformed
    else
      match ReadNat(t)
      case Read(n, rest) => Read(n, rest)
      case Malformed => Malformed
  }
}

/** What is written reads back: strings, numbers and whole frames. */
module ReadingLaws {
  import opened Json
  import opened Utf8
  import opened JsonText
  import opened JsonReader
  import opened Frames
  import opened FrameLaws

  lemma FirstByteOf(b: Byte, t: Bytes)
    ensures ([b] + t)[0] == b && ([b] + t)[1..] == t
  {
  }

  lemma HexDigitReadsBack(d: nat)
    requires d < 0x10
    ensures HexValue(HexDigit(d)) == Some(d)
  {
  }

  lemma HexPairReadsBack(b: Byte)
    ensures HexPair(HexDigit(b / 0x10), HexDigit(b % 0x10)) == Some(b)
  {
    HexDigitReadsBack(b / 0x10);
    HexDigitReadsBack(b % 0x10);
    assert 0x10 * (b / 0x10) + b % 0x10 == b;
  }

  lemma HalvesOf(code: nat)
    requires code < 0x1_0000
    ensures code / 0x1000 == code / 0x100 / 0x10 && code / 0x10 % 0x10 == code % 0x100 / 0x10
    ensures code / 0x100 % 0x10 == code / 0x100 % 0x10 && code % 0x10 == code % 0x100 % 0x10
    ensures code / 0x100 < 0x100
  {
  }

  /** A code unit is what its four digits say. */
  lemma CodeReadsBack(code: nat)
    requires code < 0x1_0000
    ensures CodeUnit(UnicodeEscape(code)[2..]) == Some(code)
  {
    hide HexPair, HexDigit;
    HalvesOf(code);
    HexPairReadsBack(code / 0x100);
    HexPairReadsBack(code % 0x100);
  }

  /** The hexadecimal id of a frame is that of its random bytes. */
  lemma {:induction false} HexReadsBack(s: Bytes)
    ensures HexBytes(Hex(s)) == Some(s)
  {
    hide HexPair, HexDigit;
    if s != [] {
      HexReadsBack(s[1..]);
      HexPairReadsBack(s[0]);
      assert Hex(s)[2..] == Hex(s[1..]);
      assert s == [s[0]] + s[1..];
    }
  }

  lemma EscapeParts(escape: Bytes, rest: Bytes)
    requires |escape| == 6
    ensures
      var t := escape + rest;
      && t[0] == escape[0] && t[1..][0] == escape[1]
      && t[1..][1..5] == escape[2..] && t[1..][5..] == rest
  {
  }

  lemma UnicodeEscapeReadsBack(code: Scalar, rest: Bytes)
    requires code < 0x1_0000
    ensures ReadBody(UnicodeEscape(code) + rest) == After(EncodeScalar(code), ReadBody(rest))
  {
    hide HexDigit, CodeUnit, EncodeScalar;
    var t := UnicodeEscape(code) + rest;
    CodeReadsBack(code);
    EscapeParts(UnicodeEscape(code), rest);
  }

  lemma ShortEscapeReadsBack(b: Byte, rest: Bytes)
    requires ShortEscape(b) != 0
    ensures ReadBody([0x5C, ShortEscape(b)] + rest) == After([b], ReadBody(rest))
  {
    var t := [0x5C, ShortEscape(b)] + rest;
    assert t[1..][0] == ShortEscape(b) && t[1..][1..] == rest;
  }

  lemma AfterParts(a: Bytes, b: Bytes, r: Read<Bytes>)
    ensures After(a, After(b, r)) == After(a + b, r)
  {
    if r.Read? {
      assert a + (b + r.value) == (a + b) + r.value;
    }
  }

  /** A byte that a string may hold as it is. */
  predicate MayStandBare(b: Byte) {
    b >= 0x20 && b != 0x22 && b != 0x5C
  }

  lemma {:induction false} BareReadsBack(raw: Bytes, rest: Bytes)
    requires forall i :: 0 <= i < |raw| ==> MayStandBare(raw[i])
    ensures ReadBody(raw + rest) == After(raw, ReadBody(rest))
  {
    if raw == [] {
      assert raw + rest == rest;
      assert ReadBody(rest).Read? ==> [] + ReadBody(rest).value == ReadBody(rest).value;
    } else {
      BareReadsBack(raw[1..], rest);
      assert (raw + rest)[1..] == raw[1..] + rest;
      AfterParts([raw[0]], raw[1..], ReadBody(rest));
      assert raw == [raw[0]] + raw[1..];
    }
  }

  lemma RuneReadsBack(rune: Bytes, rest: Bytes)
    requires RuneLen(rune) == |rune| > 0
    ensures ReadBody(EscapeRune(rune) + rest) == After(rune, ReadBody(rest))
  {
    hide ReadBody, UnicodeEscape;
    if |rune| == 1 {
      assert rune == [rune[0]];
      if ShortEscape(rune[0]) != 0 {
        ShortEscapeReadsBack(rune[0], rest);
      } else if EscapeRune(rune) != rune {
        UnicodeEscapeReadsBack(rune[0], rest);
      } else {
        BareReadsBack(rune, rest);
      }
    } else if EscapeRune(rune) == rune {
      BareReadsBack(rune, rest);
    } else if rune == [0xE2, 0x80, 0xA8] {
      assert EncodeScalar(0x2028) == rune;
      UnicodeEscapeReadsBack(0x2028, rest);
    } else {
      assert EncodeScalar(0x2029) == rune;
      UnicodeEscapeReadsBack(0x2029, rest);
    }
  }

  lemma {:induction false} EscapedReadsBack(s: Bytes, rest: Bytes)
    requires ValidUtf8(s)
    ensures ReadBody(Escape(s) + rest) == After(s, ReadBody(rest))
    decreases |s|
  {
    hide ReadBody, EscapeRune, RuneLen;
    if s == [] {
      assert Escape(s) + rest == rest;
      assert ReadBody(rest).Read? ==> [] + ReadBody(rest).value == ReadBody(rest).value;
    } else {
      var n := RuneLen(s);
      RuneIsValid(s);
      EscapedReadsBack(s[n..], rest);
      RuneReadsBack(s[..n], Escape(s[n..]) + rest);
      assert Escape(s) + rest == EscapeRune(s[..n]) + (Escape(s[n..]) + rest);
      AfterParts(s[..n], s[n..], ReadBody(rest));
      assert s[..n] + s[n..] == s;
    }
  }

  /** A quoted string reads back as the very string, and reading stops at its closing quote. */
  lemma QuotedReadsBack(s: Bytes, rest: Bytes)
    requires ValidUtf8(s)
    ensures ReadString(Quote(s) + rest) == Read(s, rest)
  {
    hide Escape, ValidUtf8, ReadBody;
    EscapedReadsBack(s, [0x22] + rest);
    Closing(rest);
    assert (Quote(s) + rest)[1..] == Escape(s) + ([0x22] + rest);
    assert s + [] == s;
  }

  lemma Closing(rest: Bytes)
    ensures ReadBody([0x22] + rest) == Read([], rest)
  {
    FirstByteOf(0x22, rest);
  }

  // ---------------------------------------------------------------------------------------------
  // What an escaped text may hold, and what it costs

  predicate LineSeparator(s: Bytes) {
    |s| >= 3 && s[0] == 0xE2 && s[1] == 0x80 && (s[2] == 0xA8 || s[2] == 0xA9)
  }

  predicate Unsafe(b: Byte) {
    b < 0x20 || b in {0x3C, 0x3E, 0x26}
  }

  /** What a character costs once escaped: two for the named ones, six for the other controls and the HTML ones. */
  lemma CostTable(s: Bytes)
    requires RuneLen(s) > 0
    ensures RuneCost(s) ==
      if s[0] in {0x22, 0x5C, 0x08, 0x0C, 0x0A, 0x0D, 0x09} then 2
      else if Unsafe(s[0]) || LineSeparator(s) then 6
      else RuneLen(s)
  {
    var rune := s[..RuneLen(s)];
    RuneIsValid(s);
    assert LineSeparator(s) ==> rune == [0xE2, 0x80, s[2]];
    if rune == [0xE2, 0x80, 0xA8] || rune == [0xE2, 0x80, 0xA9] {
      assert s[0] == rune[0] && s[1] == rune[1] && s[2] == rune[2];
    }
  }

  predicate Safe(t: Bytes) {
    && (forall i :: 0 <= i < |t| ==> !Unsafe(t[i]))
    && (forall i :: 0 <= i < |t| ==> !LineSeparator(t[i..]))
  }

  lemma SafeRune(rune: Bytes, rest: Bytes, i: nat)
    requires RuneLen(rune) == |rune| > 0 && i < |EscapeRune(rune)|
    ensures !Unsafe(EscapeRune(rune)[i]) && !LineSeparator((EscapeRune(rune) + rest)[i..])
  {
    var t := EscapeRune(rune) + rest;
    assert t[i..][0] == EscapeRune(rune)[i];
    if EscapeRune(rune) == rune && |rune| == 3 && i == 0 {
      assert t[i..][1] == rune[1] && t[i..][2] == rune[2];
      assert rune == [rune[0], rune[1], rune[2]];
    }
  }

  lemma SafeReplacement(rest: Bytes, i: nat)
    requires i < 6
    ensures !Unsafe(UnicodeEscape(0xFFFD)[i]) && !LineSeparator((UnicodeEscape(0xFFFD) + rest)[i..])
  {
    assert (UnicodeEscape(0xFFFD) + rest)[i..][0] == UnicodeEscape(0xFFFD)[i];
  }

  /** No escaped text holds a control character, an HTML character or a line separator. */
  lemma {:induction false} EscapedIsSafe(s: Bytes)
    ensures Safe(Escape(s))
    decreases |s|
  {
    hide EscapeRune, UnicodeEscape, LineSeparator, Unsafe;
    if s != [] {
      var n := RuneLen(s);
      var rest := Escape(s[if n == 0 then 1 else n..]);
      var head := Escape(s)[..|Escape(s)| - |rest|];
      EscapedIsSafe(s[if n == 0 then 1 else n..]);
      if n > 0 {
        RuneIsValid(s);
      }
      assert head == if n == 0 then UnicodeEscape(0xFFFD) else EscapeRune(s[..n]);
      forall i | 0 <= i < |Escape(s)| ensures !Unsafe(Escape(s)[i]) && !LineSeparator(Escape(s)[i..]) {
        if i >= |head| {
          assert Escape(s)[i..] == rest[i - |head|..];
        } else if n == 0 {
          SafeReplacement(rest, i);
        } else {
          SafeRune(s[..n], rest, i);
        }
      }
    }
  }

  // ---------------------------------------------------------------------------------------------
  // Numbers and frames

  lemma {:induction false} DecimalIsDigits(n: nat)
    ensures forall i :: 0 <= i < |Decimal(n)| ==> Digit(Decimal(n)[i])
    ensures Number(Decimal(n)) == n
    ensures n > 0 ==> Decimal(n)[0] != 0x30
  {
    if n >= 10 {
      DecimalIsDigits(n / 10);
      assert Decimal(n)[..|Decimal(n)| - 1] == Decimal(n / 10);
    } else {
      assert Decimal(n)[..0] == [];
    }
  }

  lemma {:induction false} DigitsEnd(digits: Bytes, rest: Bytes)
    requires forall i :: 0 <= i < |digits| ==> Digit(digits[i])
    requires rest == [] || !Digit(rest[0])
    ensures Digits(digits + rest) == |digits|
  {
    if digits == [] {
      assert digits + rest == rest;
    } else {
      DigitsEnd(digits[1..], rest);
      assert (digits + rest)[1..] == digits[1..] + rest;
    }
  }

  lemma DecimalReadsBack(n: nat, rest: Bytes)
    requires rest == [] || !Digit(rest[0])
    ensures ReadNat(Decimal(n) + rest) == Read(n, rest)
  {
    DecimalIsDigits(n);
    DigitsEnd(Decimal(n), rest);
    assert (Decimal(n) + rest)[..|Decimal(n)|] == Decimal(n);
    assert (Decimal(n) + rest)[|Decimal(n)|..] == rest;
    assert n == 0 ==> |Decimal(n)| == 1;
  }

  lemma NotMinus(n: nat, rest: Bytes)
    ensures (Decimal(n) + rest)[0] != 0x2D
  {
    DecimalIsDigits(n);
  }

  lemma IntReadsBack(n: int, rest: Bytes)
    requires rest == [] || !Digit(rest[0])
    ensures ReadInt(JsonInt(n) + rest) == Read(n, rest)
  {
    hide Decimal, ReadNat;
    if n < 0 {
      DecimalReadsBack(-n, rest);
      assert [0x2D] + Decimal(-n) + rest == [0x2D] + (Decimal(-n) + rest);
      FirstByteOf(0x2D, Decimal(-n) + rest);
    } else {
      NotMinus(n, rest);
      DecimalReadsBack(n, rest);
    }
  }

  /** A string member of an object: what stands before its value, and the value. */
  function StringMember(t: Bytes, lead: string): (r: Read<Bytes>) {
    if Ascii(lead) <= t then ReadString(t[|lead|..]) else Malformed
  }

  function IntMember(t: Bytes, lead: string): (r: Read<int>) {
    if Ascii(lead) <= t then ReadInt(t[|lead|..]) else Malformed
  }

  /** Reads one frame and nothing behind it. */
  function ReadFrame(t: Bytes): (f: Option<FrameBlock>) {
    var id := StringMember(t, "{\"id\":");
    if id.Malformed? then None else
    var frameType := StringMember(id.rest, ",\"type\":");
    if frameType.Malformed? then None else
    var blockId := StringMember(frameType.rest, ",\"block_id\":");
    if blockId.Malformed? then None else
    var seqNo := IntMember(blockId.rest, ",\"seq\":");
    if seqNo.Malformed? then None else
    var total := IntMember(seqNo.rest, ",\"total\":");
    if total.Malformed? then None else
    var data := StringMember(total.rest, ",\"data\":");
    if data.Malformed? || data.rest != Ascii("}") then None
    else Some(FrameBlock(id.value, frameType.value, blockId.value, seqNo.value, total.value, data.value))
  }

  lemma StringMemberReadsBack(lead: string, s: Bytes, rest: Bytes)
    requires ValidUtf8(s)
    ensures StringMember(Ascii(lead) + Quote(s) + rest, lead) == Read(s, rest)
  {
    hide ReadString, Quote, Ascii;
    QuotedReadsBack(s, rest);
    assert (Ascii(lead) + Quote(s) + rest)[|lead|..] == Quote(s) + rest;
  }

  lemma IntMemberReadsBack(lead: string, n: int, rest: Bytes)
    requires rest != [] && !Digit(rest[0])
    ensures IntMember(Ascii(lead) + JsonInt(n) + rest, lead) == Read(n, rest)
  {
    hide ReadInt, JsonInt, Ascii;
    IntReadsBack(n, rest);
    assert (Ascii(lead) + JsonInt(n) + rest)[|lead|..] == JsonInt(n) + rest;
  }

  lemma EncodedMembers(f: FrameBlock, id: Bytes, frameType: Bytes, blockId: Bytes, seqNo: Bytes, total: Bytes,
      data: Bytes)
    requires id == Ascii("{\"id\":") + Quote(f.id)
    requires frameType == Ascii(",\"type\":") + Quote(f.frameType)
    requires blockId == Ascii(",\"block_id\":") + Quote(f.blockId)
    requires seqNo == Ascii(",\"seq\":") + JsonInt(f.seqNo)
    requires total == Ascii(",\"total\":") + JsonInt(f.total)
    requires data == Ascii(",\"data\":") + Quote(f.data)
    ensures Encode(f) == id + (frameType + (blockId + (seqNo + (total + (data + Ascii("}"))))))
  {
    hide Ascii, Quote, JsonInt;
  }

  /** The encoding of a frame whose strings are valid text is read as that frame, with nothing left over. */
  lemma FrameReadsBack(f: FrameBlock)
    requires ValidUtf8(f.id) && ValidUtf8(f.frameType) && ValidUtf8(f.blockId) && ValidUtf8(f.data)
    ensures ReadFrame(Encode(f)) == Some(f)
  {
    hide StringMember, IntMember, Encode, Quote, JsonInt, ValidUtf8;
    var end := Ascii("}");
    var data := Ascii(",\"data\":") + Quote(f.data);
    var total := Ascii(",\"total\":") + JsonInt(f.total);
    var seqNo := Ascii(",\"seq\":") + JsonInt(f.seqNo);
    var blockId := Ascii(",\"block_id\":") + Quote(f.blockId);
    var frameType := Ascii(",\"type\":") + Quote(f.frameType);
    var id := Ascii("{\"id\":") + Quote(f.id);
    EncodedMembers(f, id, frameType, blockId, seqNo, total, data);
    StringMemberReadsBack(",\"data\":", f.data, end);
    IntMemberReadsBack(",\"total\":", f.total, data + end);
    IntMemberReadsBack(",\"seq\":", f.seqNo, total + (data + end));
    StringMemberReadsBack(",\"block_id\":", f.blockId, seqNo + (total + (data + end)));
    StringMemberReadsBack(",\"type\":", f.frameType, blockId + (seqNo + (total + (data + end))));
    StringMemberReadsBack("{\"id\":", f.id, frameType + (blockId + (seqNo + (total + (data + end)))));
  }

  lemma {:induction false} PlainIsValid(s: Bytes)
    requires Plain(s)
    ensures ValidUtf8(s)
  {
    if s != [] {
      PlainIsValid(s[1..]);
    }
  }

  lemma HexIsPlain(s: Bytes)
    ensures Plain(Hex(s))
  {
  }

  lemma TypeIsPlain()
    ensures Plain(FRAME_TYPE)
  {
    hide Plain;
    LettersArePlain("frame");
  }

  lemma LettersArePlain(text: string)
    requires forall i :: 0 <= i < |text| ==> 'a' <= text[i] <= 'z'
    ensures Plain(Ascii(text))
  {
  }

  lemma FrameAtReadsBack(random: nat -> Nonce, blockId: Bytes, parts: seq<Bytes>, k: nat)
    requires k < |parts| && ValidUtf8(parts[k])
    ensures
      var f := FrameAt(random, blockId, parts, k);
      HexBytes(f.id) == Some(random(k)) && Plain(f.id) && (ValidUtf8(blockId) ==> ReadFrame(Encode(f)) == Some(f))
  {
    hide ReadFrame, Encode, ValidUtf8, Hex, HexBytes, Plain;
    HexReadsBack(random(k));
    HexIsPlain(random(k));
    TypeIsPlain();
    PlainIsValid(Hex(random(k)));
    PlainIsValid(FRAME_TYPE);
    if ValidUtf8(blockId) {
      FrameReadsBack(FrameAt(random, blockId, parts, k));
    }
  }

  /**
   * What framing returns: frames that read back from their encodings, under the ids drawn for them, at their
   * positions, and whose data joined in order is the block.
   */
  lemma FramesReadBack(reader: Reader, random: nat -> Nonce, block: Bytes, maxBytes: int)
    requires FrameSpec(reader, random, block, maxBytes).Framed?
    ensures
      var frames := FrameSpec(reader, random, block, maxBytes).frames;
      && Concat(Datas(frames)) == block
      && forall k :: 0 <= k < |frames| ==>
        && HexBytes(frames[k].id) == Some(random(k)) && Plain(frames[k].id)
        && frames[k].frameType == Ascii("frame") && Some(frames[k].blockId) == reader(block)
        && frames[k].seqNo == k && frames[k].total == |frames|
        && (ValidUtf8(frames[k].blockId) ==> ReadFrame(Encode(frames[k])) == Some(frames[k]))
  {
    var frames := FrameSpec(reader, random, block, maxBytes).frames;
    var blockId := BlockIdentity(reader, block).value;
    var budget := Budget(blockId, |block|, maxBytes);
    hide ReadFrame, Encode, Hex, HexBytes, Greedy, ValidUtf8, Plain;
    GreedySplits(block, budget);
    var parts := Greedy(block, budget).value;
    assert Datas(frames) == parts;
    forall k | 0 <= k < |frames|
      ensures HexBytes(frames[k].id) == Some(random(k)) && Plain(frames[k].id)
      ensures ValidUtf8(blockId) ==> ReadFrame(Encode(frames[k])) == Some(frames[k])
    {
      FrameAtReadsBack(random, blockId, parts, k);
    }
  }
}
