/** JavaScript strings as sequences of UTF-16 code units, and the part of JSON printing
    that only concerns strings: the quoting done by JSON.stringify. */
module JsText {

  type CodeUnit = n: nat | n < 0x1_0000
  type Text = seq<CodeUnit>

  const BACKSPACE: CodeUnit := 8
  const TAB: CodeUnit := 9
  const NEWLINE: CodeUnit := 10
  const FORM_FEED: CodeUnit := 12
  const RETURN: CodeUnit := 13
  const QUOTE: CodeUnit := 34
  const PLUS: CodeUnit := 43
  const COMMA: CodeUnit := 44
  const MINUS: CodeUnit := 45
  const DOT: CodeUnit := 46
  const SLASH: CodeUnit := 47
  const COLON: CodeUnit := 58
  const LEFT_BRACKET: CodeUnit := 91
  const BACKSLASH: CodeUnit := 92
  const RIGHT_BRACKET: CodeUnit := 93
  const LEFT_BRACE: CodeUnit := 123
  const RIGHT_BRACE: CodeUnit := 125

  predicate IsHighSurrogate(c: CodeUnit) { 0xD800 <= c < 0xDC00 }

  predicate IsLowSurrogate(c: CodeUnit) { 0xDC00 <= c < 0xE000 }

  predicate StartsWithPair(s: Text) {
    2 <= |s| && IsHighSurrogate(s[0]) && IsLowSurrogate(s[1])
  }

  /** `parts.join(separator)` for a one-unit separator. */
  function Join(parts: seq<Text>, separator: CodeUnit): Text {
    if |parts| == 0 then []
    else if |parts| == 1 then parts[0]
    else parts[0] + [separator] + Join(parts[1..], separator)
  }

  function HexDigit(d: nat): CodeUnit
    requires d < 16
  {
    if d < 10 then 48 + d else 87 + d
  }

  function UnicodeEscape(c: CodeUnit): Text {
    [BACKSLASH, 117, HexDigit(c / 4096), HexDigit(c / 256 % 16), HexDigit(c / 16 % 16), HexDigit(c % 16)]
  }

  /** How JSON.stringify writes one code unit that is not part of a surrogate pair. */
  function EscapeUnit(c: CodeUnit): Text {
    if c == BACKSPACE then [BACKSLASH, 98]
    else if c == TAB then [BACKSLASH, 116]
    else if c == NEWLINE then [BACKSLASH, 110]
    else if c == FORM_FEED then [BACKSLASH, 102]
    else if c == RETURN then [BACKSLASH, 114]
    else if c == QUOTE then [BACKSLASH, QUOTE]
    else if c == BACKSLASH then [BACKSLASH, BACKSLASH]
    else if c < 32 || IsHighSurrogate(c) || IsLowSurrogate(c) then UnicodeEscape(c)
    else [c]
  }

  /** The number of code units the first printed chunk of a non-empty string stands for. */
  function ChunkLength(s: Text): (n: nat)
    requires s != []
    ensures 1 <= n <= |s|
  {
    if StartsWithPair(s) then 2 else 1
  }

  function Chunk(s: Text): Text
    requires s != []
  {
    if StartsWithPair(s) then s[..2] else EscapeUnit(s[0])
  }

  function Escaped(s: Text): Text {
    if s == [] then [] else Chunk(s) + Escaped(s[ChunkLength(s)..])
  }

  /** JSON.stringify on a string. */
  function Quoted(s: Text): Text {
    [QUOTE] + Escaped(s) + [QUOTE]
  }

  lemma HexValue(c: CodeUnit)
    ensures c == 4096 * (c / 4096) + 256 * (c / 256 % 16) + 16 * (c / 16 % 16) + c % 16
  {
    assert c / 256 == c / 16 / 16;
    assert c / 4096 == c / 256 / 16;
  }

  lemma HexDigitInjective(c: nat, d: nat)
    requires c < 16 && d < 16 && HexDigit(c) == HexDigit(d)
    ensures c == d
  {
  }

  lemma UnicodeEscapeInjective(c: CodeUnit, d: CodeUnit)
    requires UnicodeEscape(c) == UnicodeEscape(d)
    ensures c == d
  {
    var x, y := UnicodeEscape(c), UnicodeEscape(d);
    assert x[2] == y[2] && x[3] == y[3] && x[4] == y[4] && x[5] == y[5];
    HexDigitInjective(c / 4096, d / 4096);
    HexDigitInjective(c / 256 % 16, d / 256 % 16);
    HexDigitInjective(c / 16 % 16, d / 16 % 16);
    HexDigitInjective(c % 16, d % 16);
    HexValue(c);
    HexValue(d);
  }

  /** A printed unit is recognised by how it starts: no printed unit is a prefix of another. */
  lemma EscapeUnitPrefixFree(c: CodeUnit, d: CodeUnit, t: Text, u: Text)
    requires EscapeUnit(c) + t == EscapeUnit(d) + u
    ensures c == d && t == u
  {
    var x, y := EscapeUnit(c) + t, EscapeUnit(d) + u;
    assert x[0] == EscapeUnit(c)[0] && y[0] == EscapeUnit(d)[0];
    if |EscapeUnit(c)| > 1 && |EscapeUnit(d)| > 1 {
      assert x[1] == EscapeUnit(c)[1] && y[1] == EscapeUnit(d)[1];
      LongEscapesDiffer(c, d, t, u);
    }
    assert c == d;
    assert t == x[|EscapeUnit(c)|..] && u == y[|EscapeUnit(c)|..];
  }

  lemma LongEscapesDiffer(c: CodeUnit, d: CodeUnit, t: Text, u: Text)
    requires EscapeUnit(c) + t == EscapeUnit(d) + u
    requires |EscapeUnit(c)| > 1 && |EscapeUnit(d)| > 1 && EscapeUnit(c)[1] == EscapeUnit(d)[1]
    ensures c == d
  {
    if EscapeUnit(c)[1] == 117 {
      assert EscapeUnit(c) == UnicodeEscape(c) && EscapeUnit(d) == UnicodeEscape(d);
      assert (UnicodeEscape(c) + t)[..6] == UnicodeEscape(c) && (UnicodeEscape(d) + u)[..6] == UnicodeEscape(d);
      UnicodeEscapeInjective(c, d);
    }
  }

  lemma ChunkPrefixFree(r: Text, s: Text, t: Text, u: Text)
    requires r != [] && s != []
    requires Chunk(r) + t == Chunk(s) + u
    ensures ChunkLength(r) == ChunkLength(s) && r[..ChunkLength(r)] == s[..ChunkLength(s)] && t == u
  {
    var x, y := Chunk(r) + t, Chunk(s) + u;
    assert x[0] == Chunk(r)[0] && y[0] == Chunk(s)[0];
    if !StartsWithPair(r) && !StartsWithPair(s) {
      EscapeUnitPrefixFree(r[0], s[0], t, u);
    } else {
      assert StartsWithPair(r) && StartsWithPair(s);
      assert x[..2] == r[..2] && y[..2] == s[..2];
      assert t == x[2..] && u == y[2..];
    }
  }

  lemma ChunkNeverStartsWithQuote(s: Text)
    requires s != []
    ensures Chunk(s) != [] && Chunk(s)[0] != QUOTE
  {
  }

  lemma EscapedHead(s: Text, t: Text)
    ensures Escaped(s) + [QUOTE] + t ==
            if s == [] then [QUOTE] + t else Chunk(s) + (Escaped(s[ChunkLength(s)..]) + [QUOTE] + t)
  {
  }

  lemma QuoteEndsEscaped(s: Text, t: Text, u: Text)
    requires s != []
    ensures [QUOTE] + t != Escaped(s) + [QUOTE] + u
  {
    EscapedHead(s, u);
    ChunkNeverStartsWithQuote(s);
    assert (Escaped(s) + [QUOTE] + u)[0] == Chunk(s)[0];
  }

  /** A quoted string is uniquely decodable: it determines both the string and where it ends. */
  lemma {:induction false} EscapedUniquelyDecodable(r: Text, s: Text, t: Text, u: Text)
    requires Escaped(r) + [QUOTE] + t == Escaped(s) + [QUOTE] + u
    ensures r == s && t == u
  {
    EscapedHead(r, t);
    EscapedHead(s, u);
    if r == [] || s == [] {
      if s != [] { QuoteEndsEscaped(s, t, u); }
      if r != [] { QuoteEndsEscaped(r, u, t); }
      assert t == ([QUOTE] + t)[1..] && u == ([QUOTE] + u)[1..];
    } else {
      var r', s' := r[ChunkLength(r)..], s[ChunkLength(s)..];
      ChunkPrefixFree(r, s, Escaped(r') + [QUOTE] + t, Escaped(s') + [QUOTE] + u);
      EscapedUniquelyDecodable(r', s', t, u);
      assert r == r[..ChunkLength(r)] + r' && s == s[..ChunkLength(s)] + s';
    }
  }

  lemma QuotedUniquelyDecodable(r: Text, s: Text, t: Text, u: Text)
    requires Quoted(r) + t == Quoted(s) + u
    ensures r == s && t == u
  {
    var x, y := Quoted(r) + t, Quoted(s) + u;
    assert x[1..] == Escaped(r) + [QUOTE] + t;
    assert y[1..] == Escaped(s) + [QUOTE] + u;
    EscapedUniquelyDecodable(r, s, t, u);
  }

  /** The decimal digits of a number. */
  function Decimal(n: nat): Text {
    if n < 10 then [48 + n as CodeUnit] else Decimal(n / 10) + [48 + (n % 10) as CodeUnit]
  }

  lemma {:induction false} DecimalDigits(n: nat)
    ensures forall c :: c in Decimal(n) ==> 48 <= c <= 57
  {
    if n >= 10 { DecimalDigits(n / 10); }
  }
}
