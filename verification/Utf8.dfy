/** UTF-8 well-formedness as in section 4 of RFC 3629, on byte strings. */
module Utf8 {
  type Byte = b: int | 0 <= b < 0x100
  type Bytes = seq<Byte>

  predicate Tail(b: Byte) {
    0x80 <= b <= 0xBF
  }

  /** What a decoder takes for the first byte of a character: anything but a tail byte. */
  predicate RuneStart(b: Byte) {
    !Tail(b)
  }

  predicate Pair(s: Bytes) {
    |s| >= 2 && 0xC2 <= s[0] <= 0xDF && Tail(s[1])
  }

  predicate Triple(s: Bytes) {
    && |s| >= 3 && Tail(s[1]) && Tail(s[2])
    && (|| (s[0] == 0xE0 && 0xA0 <= s[1])
        || (0xE1 <= s[0] <= 0xEC)
        || (s[0] == 0xED && s[1] <= 0x9F)
        || (0xEE <= s[0] <= 0xEF))
  }

  predicate Quad(s: Bytes) {
    && |s| >= 4 && Tail(s[1]) && Tail(s[2]) && Tail(s[3])
    && (|| (s[0] == 0xF0 && 0x90 <= s[1])
        || (0xF1 <= s[0] <= 0xF3)
        || (s[0] == 0xF4 && s[1] <= 0x8F))
  }

  /** The length of the well-formed character at the front, or 0 when there is none. */
  function RuneLen(s: Bytes): (n: nat)
    ensures n <= |s| && n <= 4
    ensures n > 0 ==> RuneStart(s[0]) && forall k :: 1 <= k < n ==> Tail(s[k])
  {
    if s == [] then 0
    else if s[0] <= 0x7F then 1
    else if Pair(s) then 2
    else if Triple(s) then 3
    else if Quad(s) then 4
    else 0
  }

  predicate ValidUtf8(s: Bytes)
    decreases |s|
  {
    s == [] || (RuneLen(s) > 0 && ValidUtf8(s[RuneLen(s)..]))
  }

  /** A code point that is not half of a surrogate pair. */
  type Scalar = c: int | 0 <= c < 0xD800 || 0xE000 <= c < 0x11_0000

  /** The six lowest bits, in a tail byte. */
  function TailByte(bits: nat): (b: Byte)
    ensures Tail(b)
  {
    0x80 + bits % 0x40
  }

  /** The lead byte with the highest bits, and the first tail byte. */
  function LeadByte(lead: Byte, bits: nat): (r: Bytes)
    requires lead + bits / 0x40 <= 0xFF
  {
    [lead + bits / 0x40, TailByte(bits)]
  }

  /** The bytes of a scalar value, by section 3 of RFC 3629: six bits to a tail byte. */
  function EncodeScalar(c: Scalar): (r: Bytes) {
    if c < 0x80 then [c]
    else if c < 0x800 then [0xC0 + c / 0x40, TailByte(c)]
    else if c < 0x1_0000 then LeadByte(0xE0, c / 0x40) + [TailByte(c)]
    else LeadByte(0xF0, c / 0x40 / 0x40) + [TailByte(c / 0x40), TailByte(c)]
  }

  function EncodeScalars(cs: seq<Scalar>): (r: Bytes) {
    if cs == [] then [] else EncodeScalar(cs[0]) + EncodeScalars(cs[1..])
  }

  /** Six more bits at the end of a number. */
  function Shift(high: nat, b: Byte): (r: nat)
    requires Tail(b)
    ensures r / 0x40 == high && TailByte(r) == b
  {
    high * 0x40 + (b as int - 0x80)
  }

  /** The character at the front is the encoding of a scalar value. */
  lemma RuneIsScalar(s: Bytes) returns (c: Scalar)
    requires RuneLen(s) > 0
    ensures EncodeScalar(c) == s[..RuneLen(s)]
  {
    if s[0] <= 0x7F {
      c := s[0];
    } else if Pair(s) {
      c := Shift(s[0] as int - 0xC0, s[1]);
    } else if Triple(s) {
      var high := Shift(s[0] as int - 0xE0, s[1]);
      c := Shift(high, s[2]);
    } else {
      var high := Shift(s[0] as int - 0xF0, s[1]);
      c := Shift(Shift(high, s[2]), s[3]);
    }
  }

  /** And every scalar value's encoding is recognized at its full length. */
  lemma ScalarIsRune(c: Scalar, s: Bytes)
    requires EncodeScalar(c) <= s
    ensures RuneLen(s) == |EncodeScalar(c)| > 0
  {
    var r := EncodeScalar(c);
    assert forall k :: 0 <= k < |r| ==> s[k] == r[k];
    if c < 0x80 {
    } else if c < 0x800 {
      assert Pair(s);
    } else if c < 0x1_0000 {
      var high := c / 0x40;
      assert 0x20 <= high < 0x360 || 0x380 <= high < 0x400;
      assert s[0] == 0xE0 + high / 0x40 && s[1] == 0x80 + high % 0x40;
      assert Triple(s);
    } else {
      var high := c / 0x40 / 0x40;
      assert 0x10 <= high < 0x110;
      assert s[0] == 0xF0 + high / 0x40 && s[1] == 0x80 + high % 0x40;
      assert Quad(s);
    }
  }

  lemma FirstScalar(c: Scalar, cs: seq<Scalar>)
    ensures EncodeScalars([c] + cs) == EncodeScalar(c) + EncodeScalars(cs)
  {
    assert ([c] + cs)[1..] == cs;
  }

  lemma FirstEncoded(cs: seq<Scalar>)
    requires cs != []
    ensures
      var s := EncodeScalars(cs);
      && RuneLen(s) > 0 && s[..RuneLen(s)] == EncodeScalar(cs[0])
      && s[RuneLen(s)..] == EncodeScalars(cs[1..])
  {
    ScalarIsRune(cs[0], EncodeScalars(cs));
  }

  /** Valid text is exactly what sequences of scalar values encode to. */
  lemma {:induction false} ValidIsEncoded(s: Bytes)
    ensures ValidUtf8(s) <==> exists cs: seq<Scalar> :: EncodeScalars(cs) == s
    decreases |s|
  {
    hide RuneLen, EncodeScalar;
    if s == [] {
      assert EncodeScalars([]) == s;
    } else {
      if ValidUtf8(s) {
        var c := RuneIsScalar(s);
        ValidIsEncoded(s[RuneLen(s)..]);
        var cs: seq<Scalar> :| EncodeScalars(cs) == s[RuneLen(s)..];
        FirstScalar(c, cs);
        assert s == s[..RuneLen(s)] + s[RuneLen(s)..];
      }
      if cs: seq<Scalar> :| EncodeScalars(cs) == s {
        FirstEncoded(cs);
        ValidIsEncoded(s[RuneLen(s)..]);
      }
    }
  }

  /** A position that does not split a character, judged by the byte there alone. */
  predicate Boundary(s: Bytes, i: nat) {
    i <= |s| && (i == 0 || i == |s| || RuneStart(s[i]))
  }

  /** A character is recognized from its own bytes, whatever follows. */
  lemma RuneLenIsLocal(s: Bytes, t: Bytes)
    requires RuneLen(s) > 0 && RuneLen(s) <= |t| && t[..RuneLen(s)] == s[..RuneLen(s)]
    ensures RuneLen(t) == RuneLen(s)
  {
    var n := RuneLen(s);
    assert forall k :: 0 <= k < n ==> t[k] == t[..n][k] == s[..n][k] == s[k];
  }

  lemma {:induction false} ValidConcat(a: Bytes, b: Bytes)
    requires ValidUtf8(a)
    ensures ValidUtf8(a + b) <==> ValidUtf8(b)
    decreases |a|
  {
    if a == [] {
      assert a + b == b;
    } else {
      var n := RuneLen(a);
      assert (a + b)[..n] == a[..n];
      RuneLenIsLocal(a, a + b);
      assert (a + b)[n..] == a[n..] + b;
      ValidConcat(a[n..], b);
    }
  }

  lemma RuneIsValid(s: Bytes)
    requires RuneLen(s) > 0
    ensures ValidUtf8(s[..RuneLen(s)]) && RuneLen(s[..RuneLen(s)]) == RuneLen(s)
  {
    var rune := s[..RuneLen(s)];
    RuneLenIsLocal(s, rune);
    assert rune[RuneLen(s)..] == [];
  }

  lemma FirstRuneIsWhole(s: Bytes)
    requires ValidUtf8(s) && s != []
    ensures RuneLen(s) > 0 && ValidUtf8(s[RuneLen(s)..])
  {
  }

  lemma BoundaryBeyond(s: Bytes, i: nat)
    requires ValidUtf8(s) && Boundary(s, i) && 0 < i < |s|
    ensures 0 < RuneLen(s) <= i
    ensures ValidUtf8(s[RuneLen(s)..]) && Boundary(s[RuneLen(s)..], i - RuneLen(s))
  {
    hide RuneLen, ValidUtf8;
    FirstRuneIsWhole(s);
    var n := RuneLen(s);
    assert n <= i;
    assert i > n ==> s[n..][i - n] == s[i];
  }

  lemma JoinCut(s: Bytes, n: nat, i: nat)
    requires 0 < n <= i <= |s| && RuneLen(s) == n
    requires ValidUtf8(s[n..][..i - n]) && ValidUtf8(s[n..][i - n..])
    ensures ValidUtf8(s[..i]) && ValidUtf8(s[i..])
  {
    RuneIsValid(s);
    hide RuneLen, ValidUtf8;
    assert s[..i] == s[..n] + s[n..][..i - n];
    assert s[i..] == s[n..][i - n..];
    ValidConcat(s[..n], s[n..][..i - n]);
  }

  lemma NoCut(s: Bytes, i: nat)
    requires ValidUtf8(s) && (i == 0 || i == |s|)
    ensures ValidUtf8(s[..i]) && ValidUtf8(s[i..])
  {
    assert s[..|s|] == s && s[0..] == s && s[..0] == [] && s[|s|..] == [];
  }

  lemma BoundaryWithin(s: Bytes, i: nat)
    requires Boundary(s, i)
    ensures i <= |s|
  {
  }

  /** In valid text, cutting at a byte that starts a character leaves valid text on both sides. */
  lemma {:induction false} BoundaryCuts(s: Bytes, i: nat)
    requires ValidUtf8(s) && Boundary(s, i)
    ensures ValidUtf8(s[..i]) && ValidUtf8(s[i..])
    decreases |s|
  {
    hide RuneLen, ValidUtf8, Boundary;
    if i == 0 || i == |s| {
      NoCut(s, i);
    } else {
      BoundaryWithin(s, i);
      var n := RuneLen(s);
      BoundaryBeyond(s, i);
      BoundaryCuts(s[n..], i - n);
      JoinCut(s, n, i);
    }
  }

  /** And only there: a cut into valid halves is at a boundary. */
  lemma CutsAtBoundary(s: Bytes, i: nat)
    requires i <= |s| && ValidUtf8(s[i..])
    ensures Boundary(s, i)
  {
    if i < |s| {
      assert s[i] == s[i..][0];
    }
  }
}

/** JSON string bodies as json.Marshal writes them: section 7 of RFC 8259, and HTML-safe. */
module JsonText {
  import opened Utf8

  function Ascii(text: string): (r: Bytes)
    ensures |r| == |text|
  {
    seq(|text|, i requires 0 <= i < |text| => (text[i] as int) % 0x100)
  }

  function HexDigit(d: nat): (b: Byte)
    requires d < 16
    ensures 0x30 <= b <= 0x39 || 0x61 <= b <= 0x66
  {
    if d < 10 then 0x30 + d else 0x57 + d
  }

  /** The four-digit escape of a code unit. */
  function UnicodeEscape(code: nat): (r: Bytes)
    requires code < 0x10000
    ensures |r| == 6
  {
    [0x5C, 0x75, HexDigit(code / 0x1000), HexDigit(code / 0x100 % 0x10), HexDigit(code / 0x10 % 0x10),
      HexDigit(code % 0x10)]
  }

  /** The two-character escapes, by the character they stand for. */
  function ShortEscape(b: Byte): (letter: Byte) {
    if b == 0x22 || b == 0x5C then b
    else if b == 0x08 then 0x62
    else if b == 0x0C then 0x66
    else if b == 0x0A then 0x6E
    else if b == 0x0D then 0x72
    else if b == 0x09 then 0x74
    else 0
  }

  /** One well-formed character, escaped. */
  function EscapeRune(rune: Bytes): (r: Bytes)
    requires RuneLen(rune) == |rune| > 0
    ensures |r| >= |rune|
  {
    if |rune| == 1 then
      if ShortEscape(rune[0]) != 0 then [0x5C, ShortEscape(rune[0])]
      else if rune[0] < 0x20 || rune[0] in {0x3C, 0x3E, 0x26} then UnicodeEscape(rune[0])
      else rune
    else if rune == [0xE2, 0x80, 0xA8] then UnicodeEscape(0x2028)
    else if rune == [0xE2, 0x80, 0xA9] then UnicodeEscape(0x2029)
    else rune
  }

  /** A string body, escaped. A byte that is not part of a character becomes the replacement character. */
  function Escape(s: Bytes): (r: Bytes)
    decreases |s|
  {
    if s == [] then []
    else
      var n := RuneLen(s);
      if n == 0 then UnicodeEscape(0xFFFD) + Escape(s[1..])
      else
        RuneIsValid(s);
        EscapeRune(s[..n]) + Escape(s[n..])
  }

  function Quote(s: Bytes): (r: Bytes) {
    [0x22] + Escape(s) + [0x22]
  }

  /** The escaped size of the character at the front. */
  function RuneCost(s: Bytes): (n: nat)
    requires RuneLen(s) > 0
    ensures n >= RuneLen(s)
  {
    RuneIsValid(s);
    |EscapeRune(s[..RuneLen(s)])|
  }

  /** The escaped size of a string body, character by character. */
  function EscapedSize(s: Bytes): (n: nat)
    decreases |s|
  {
    if s == [] then 0
    else if RuneLen(s) == 0 then 6 + EscapedSize(s[1..])
    else RuneCost(s) + EscapedSize(s[RuneLen(s)..])
  }

  lemma {:induction false} EscapedSizeIsLength(s: Bytes)
    ensures |Escape(s)| == EscapedSize(s)
    decreases |s|
  {
    if s != [] {
      EscapedSizeIsLength(if RuneLen(s) == 0 then s[1..] else s[RuneLen(s)..]);
    }
  }

  lemma RuneCostIsLocal(s: Bytes, t: Bytes)
    requires RuneLen(s) > 0 && RuneLen(s) <= |t| && t[..RuneLen(s)] == s[..RuneLen(s)]
    ensures RuneLen(t) == RuneLen(s) && RuneCost(t) == RuneCost(s)
  {
    RuneLenIsLocal(s, t);
  }

  lemma {:induction false} EscapedSizeAdds(a: Bytes, b: Bytes)
    requires ValidUtf8(a)
    ensures EscapedSize(a + b) == EscapedSize(a) + EscapedSize(b)
    decreases |a|
  {
    if a == [] {
      assert a + b == b;
    } else {
      var n := RuneLen(a);
      assert (a + b)[..n] == a[..n];
      RuneCostIsLocal(a, a + b);
      assert (a + b)[n..] == a[n..] + b;
      EscapedSizeAdds(a[n..], b);
    }
  }

  /** Escaping valid text never makes it shorter. */
  lemma {:induction false} EscapingGrows(s: Bytes)
    requires ValidUtf8(s)
    ensures EscapedSize(s) >= |s|
    decreases |s|
  {
    if s != [] {
      EscapingGrows(s[RuneLen(s)..]);
    }
  }

  /** Escaped size grows with the prefix. */
  lemma EscapedPrefixGrows(s: Bytes, i: nat, j: nat)
    requires ValidUtf8(s) && Boundary(s, i) && i <= j <= |s|
    ensures EscapedSize(s[..i]) <= EscapedSize(s[..j])
  {
    BoundaryCuts(s, i);
    TakeSplits(s, i, j);
    EscapedSizeAdds(s[..i], s[i..j]);
  }

  lemma TakeSplits(s: Bytes, i: nat, j: nat)
    requires i <= j <= |s|
    ensures s[..i] + s[i..j] == s[..j]
  {
  }

  function Decimal(n: nat): (r: Bytes)
    ensures |r| >= 1
  {
    if n < 10 then [0x30 + n] else Decimal(n / 10) + [0x30 + n % 10]
  }

  lemma {:induction false} DecimalGrows(m: nat, n: nat)
    requires m <= n
    ensures |Decimal(m)| <= |Decimal(n)|
  {
    if 10 <= m {
      DecimalGrows(m / 10, n / 10);
    }
  }

  /** Lower-case hexadecimal, two digits a byte. */
  function Hex(s: Bytes): (r: Bytes)
    ensures |r| == 2 * |s|
    ensures forall i :: 0 <= i < |r| ==> 0x30 <= r[i] <= 0x39 || 0x61 <= r[i] <= 0x66
  {
    if s == [] then [] else [HexDigit(s[0] / 16), HexDigit(s[0] % 16)] + Hex(s[1..])
  }

  lemma {:induction false} HexIsInjective(a: Bytes, b: Bytes)
    requires |a| == |b| && Hex(a) == Hex(b)
    ensures a == b
  {
    if a != [] {
      assert Hex(a)[2..] == Hex(a[1..]) && Hex(b)[2..] == Hex(b[1..]);
      assert Hex(a)[0] == HexDigit(a[0] / 16) && Hex(a)[1] == HexDigit(a[0] % 16);
      assert Hex(b)[0] == HexDigit(b[0] / 16) && Hex(b)[1] == HexDigit(b[0] % 16);
      HexIsInjective(a[1..], b[1..]);
      assert a == [a[0]] + a[1..] && b == [b[0]] + b[1..];
    }
  }

  predicate Plain(s: Bytes) {
    forall i :: 0 <= i < |s| ==> 0x30 <= s[i] <= 0x39 || 0x61 <= s[i] <= 0x7A
  }

  /** Digits and lower-case letters are written as they are. */
  lemma PlainRune(b: Byte)
    requires 0x30 <= b <= 0x39 || 0x61 <= b <= 0x7A
    ensures RuneLen([b]) == 1 && EscapeRune([b]) == [b]
  {
  }

  lemma PlainByteIsUnescaped(s: Bytes)
    requires Plain(s) && s != []
    ensures Escape(s) == [s[0]] + Escape(s[1..])
  {
    var n := RuneLen(s);
    assert n == 1;
    hide EscapeRune, RuneLen;
    assert s[..1] == [s[0]];
    PlainRune(s[0]);
  }

  lemma {:induction false} PlainIsUnescaped(s: Bytes)
    requires Plain(s)
    ensures Escape(s) == s
    decreases |s|
  {
    if s != [] {
      PlainByteIsUnescaped(s);
      hide Escape;
      PlainIsUnescaped(s[1..]);
      assert s == [s[0]] + s[1..];
    }
  }
}
