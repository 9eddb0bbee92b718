/** Role scopes (shared/organization-access.ts): a resource identifier and a scope, percent-encoded
    (section 2.1 of RFC 3986) and joined by a slash. */
module RoleScope {
  import opened JsText
  import opened Options

  const PERCENT: CodeUnit := 37

  // --------------------------------------------------------------------- code points

  type CodePoint = n: nat | n < 0x11_0000

  /** Every surrogate is part of a pair. */
  predicate WellFormedText(t: Text) {
    t == [] ||
    if IsHighSurrogate(t[0]) then |t| > 1 && IsLowSurrogate(t[1]) && WellFormedText(t[2..])
    else !IsLowSurrogate(t[0]) && WellFormedText(t[1..])
  }

  function FirstPoint(t: Text): (p: CodePoint)
    requires t != [] && (IsHighSurrogate(t[0]) ==> |t| > 1 && IsLowSurrogate(t[1]))
  {
    if IsHighSurrogate(t[0]) then 0x1_0000 + 0x400 * (t[0] as int - 0xD800) + (t[1] as int - 0xDC00) else t[0]
  }

  /** The UTF-16 code units of a code point. */
  function Units(p: CodePoint): Text {
    if p < 0x1_0000 then [p]
    else [0xD800 + (p - 0x1_0000) / 0x400, 0xDC00 + (p - 0x1_0000) % 0x400]
  }

  type Byte = n: nat | n < 256

  /** UTF-8. */
  function Bytes(p: CodePoint): (r: seq<Byte>)
    ensures 1 <= |r| <= 4
  {
    if p < 0x80 then [p]
    else if p < 0x800 then [0xC0 + p / 0x40, 0x80 + p % 0x40]
    else if p < 0x1_0000 then [0xE0 + p / 0x1000, 0x80 + p / 0x40 % 0x40, 0x80 + p % 0x40]
    else [0xF0 + p / 0x4_0000, 0x80 + p / 0x1000 % 0x40, 0x80 + p / 0x40 % 0x40, 0x80 + p % 0x40]
  }

  // ------------------------------------------------------------------------ encoding

  /** Letters, digits and - _ . ! ~ * ' ( ) */
  predicate IsUnreserved(c: CodeUnit) {
    65 <= c <= 90 || 97 <= c <= 122 || 48 <= c <= 57
    || c in {45, 95, 46, 33, 126, 42, 39, 40, 41}
  }

  function UpperHex(d: nat): CodeUnit
    requires d < 16
  {
    if d < 10 then 48 + d else 55 + d
  }

  function Percent(b: Byte): Text {
    [PERCENT, UpperHex(b / 16), UpperHex(b % 16)]
  }

  function PercentAll(bs: seq<Byte>): Text {
    if bs == [] then [] else Percent(bs[0]) + PercentAll(bs[1..])
  }

  /** encodeURIComponent; None is the exception on a lone surrogate. */
  function EncodeComponent(t: Text): Option<Text>
    decreases |t|
  {
    if t == [] then Some([])
    else if IsLowSurrogate(t[0]) || (IsHighSurrogate(t[0]) && (|t| == 1 || !IsLowSurrogate(t[1]))) then None
    else
      var rest := EncodeComponent(if IsHighSurrogate(t[0]) then t[2..] else t[1..]);
      if rest.None? then None
      else if IsUnreserved(t[0]) then Some([t[0]] + rest.value)
      else Some(PercentAll(Bytes(FirstPoint(t))) + rest.value)
  }

  // ------------------------------------------------------------------------ decoding

  function HexValue(c: CodeUnit): Option<nat> {
    if 48 <= c <= 57 then Some(c - 48)
    else if 65 <= c <= 70 then Some(c - 55)
    else if 97 <= c <= 102 then Some(c - 87)
    else None
  }

  /** The byte written at the head of the text as %XX. */
  function PercentByte(t: Text): (b: Option<nat>)
    ensures b.Some? ==> |t| >= 3 && b.value < 256
  {
    if |t| < 3 || t[0] != PERCENT || HexValue(t[1]).None? || HexValue(t[2]).None? then None
    else Some(HexValue(t[1]).value * 16 + HexValue(t[2]).value)
  }

  /** How many bytes a sequence with this first byte has. */
  function SequenceLength(b: nat): nat {
    if b < 0x80 then 1 else if 0xC0 <= b < 0xE0 then 2 else if 0xE0 <= b < 0xF0 then 3
    else if 0xF0 <= b < 0xF8 then 4 else 0
  }

  /** The bits of the first byte of a sequence. */
  function LeadBits(b: Byte): nat {
    if b < 0x80 then b else if b < 0xC0 then 0 else if b < 0xE0 then b - 0xC0 else if b < 0xF0 then b - 0xE0
    else if b < 0xF8 then b - 0xF0 else 0
  }

  /** Append the bits of count continuation bytes to those read so far. */
  function Continuation(t: Text, count: nat, bits: nat): Option<nat>
    decreases count
  {
    if count == 0 then Some(bits)
    else
      var b := PercentByte(t);
      if b.None? || !(0x80 <= b.value < 0xC0) then None
      else Continuation(t[3..], count - 1, bits * 64 + (b.value - 0x80))
  }

  /** The sequence is not overlong, a surrogate or out of range. */
  predicate IsPoint(p: nat, length: nat) {
    && (length == 2 ==> p >= 0x80) && (length == 3 ==> p >= 0x800) && (length == 4 ==> p >= 0x1_0000)
    && !(0xD800 <= p <= 0xDFFF) && p < 0x11_0000
  }

  /** decodeURIComponent; None is the exception on a malformed sequence. */
  function DecodeComponent(t: Text): Option<Text>
    decreases |t|
  {
    if t == [] then Some([])
    else if t[0] != PERCENT then
      var rest := DecodeComponent(t[1..]);
      if rest.None? then None else Some([t[0]] + rest.value)
    else
      var first := PercentByte(t);
      if first.None? then None
      else
        var n := SequenceLength(first.value);
        if n == 0 || |t| < 3 * n then None
        else
          var p := Continuation(t[3..], n - 1, LeadBits(first.value));
          if p.None? || !IsPoint(p.value, n) then None
          else
            var rest := DecodeComponent(t[3 * n..]);
            if rest.None? then None else Some(Units(p.value) + rest.value)
  }

  // ---------------------------------------------------------------------- round trip

  lemma PercentByteOf(b: Byte, t: Text)
    ensures PercentByte(Percent(b) + t) == Some(b) && (Percent(b) + t)[3..] == t
  {
  }

  lemma PointOfUnits(t: Text)
    requires t != [] && !IsLowSurrogate(t[0]) && (IsHighSurrogate(t[0]) ==> |t| > 1 && IsLowSurrogate(t[1]))
    ensures var p := FirstPoint(t);
            && !(0xD800 <= p <= 0xDFFF)
            && Units(p) == (if IsHighSurrogate(t[0]) then t[..2] else t[..1])
  {
  }

  /** The decoder reads back the code point that was written, whatever follows. */
  lemma DecodesPoint(p: CodePoint, t: Text)
    requires !(0xD800 <= p <= 0xDFFF)
    ensures DecodeComponent(PercentAll(Bytes(p)) + t)
         == (match DecodeComponent(t) case None => None case Some(rest) => Some(Units(p) + rest))
  {
    var bs, s := Bytes(p), PercentAll(Bytes(p)) + t;
    BytesShape(p);
    PercentAllSplit(bs, t);
    PercentByteOf(bs[0], PercentAll(bs[1..]) + t);
    ContinuationOf(bs[1..], t, LeadBits(bs[0]));
    PercentAllLength(bs);
    assert s[3 * |bs|..] == t;
  }

  predicate AreContinuations(bs: seq<Byte>) {
    forall i :: 0 <= i < |bs| ==> 0x80 <= bs[i] < 0xC0
  }

  function AppendBits(bs: seq<Byte>, bits: nat): nat
    requires AreContinuations(bs)
    decreases |bs|
  {
    if bs == [] then bits else AppendBits(bs[1..], bits * 64 + (bs[0] - 0x80))
  }

  lemma AppendOne(bs: seq<Byte>, bits: nat)
    requires AreContinuations(bs) && bs != []
    ensures AreContinuations(bs[1..]) && AppendBits(bs, bits) == AppendBits(bs[1..], bits * 64 + (bs[0] - 0x80))
  {
  }

  lemma AppendTwo(a: Byte, b: Byte, bits: nat)
    requires AreContinuations([a, b])
    ensures AreContinuations([b]) && AppendBits([b], bits) == bits * 64 + (b - 0x80)
    ensures AppendBits([a, b], bits) == (bits * 64 + (a - 0x80)) * 64 + (b - 0x80)
  {
    AppendOne([a, b], bits);
    assert [a, b][1..] == [b] && [b][1..] == [];
    AppendOne([b], bits);
    AppendOne([b], bits * 64 + (a - 0x80));
  }

  lemma AppendThree(a: Byte, b: Byte, c: Byte, bits: nat)
    requires AreContinuations([a, b, c])
    ensures AppendBits([a, b, c], bits) == ((bits * 64 + (a - 0x80)) * 64 + (b - 0x80)) * 64 + (c - 0x80)
  {
    AppendOne([a, b, c], bits);
    assert [a, b, c][1..] == [b, c];
    AppendTwo(b, c, bits * 64 + (a - 0x80));
  }

  ghost predicate HasShape(p: CodePoint, bs: seq<Byte>) {
    && bs != [] && SequenceLength(bs[0]) == |bs| && AreContinuations(bs[1..])
    && AppendBits(bs[1..], LeadBits(bs[0])) == p && IsPoint(p, |bs|)
  }

  lemma ShapeOfTwo(p: CodePoint)
    requires 0x80 <= p < 0x800
    ensures HasShape(p, Bytes(p))
  {
    var bs := Bytes(p);
    assert bs[1..] == [bs[1]];
    AppendTwo(bs[1], bs[1], LeadBits(bs[0]));
  }

  lemma ShapeOfThree(p: CodePoint)
    requires 0x800 <= p < 0x1_0000 && !(0xD800 <= p <= 0xDFFF)
    ensures HasShape(p, Bytes(p))
  {
    var bs := Bytes(p);
    assert bs[1..] == [bs[1], bs[2]];
    AppendTwo(bs[1], bs[2], LeadBits(bs[0]));
  }

  lemma FourBytesOfBits(p: CodePoint)
    requires 0x1_0000 <= p
    ensures ((p / 0x4_0000 * 64 + p / 0x1000 % 0x40) * 64 + p / 0x40 % 0x40) * 64 + p % 0x40 == p
    ensures p / 0x4_0000 < 5
  {
    assert p / 0x1000 == p / 0x4_0000 * 64 + p / 0x1000 % 0x40;
    assert p / 0x40 == p / 0x1000 * 64 + p / 0x40 % 0x40;
  }

  lemma ShapeOfFour(p: CodePoint)
    requires 0x1_0000 <= p
    ensures HasShape(p, Bytes(p))
  {
    var bs := Bytes(p);
    assert bs[1..] == [bs[1], bs[2], bs[3]];
    FourBytesOfBits(p);
    AppendThree(bs[1], bs[2], bs[3], LeadBits(bs[0]));
  }

  lemma BytesShape(p: CodePoint)
    requires !(0xD800 <= p <= 0xDFFF)
    ensures HasShape(p, Bytes(p))
  {
    if p >= 0x1_0000 { ShapeOfFour(p); } else if p >= 0x800 { ShapeOfThree(p); } else if p >= 0x80 { ShapeOfTwo(p); }
  }

  lemma PercentAllSplit(bs: seq<Byte>, t: Text)
    requires bs != []
    ensures PercentAll(bs) + t == Percent(bs[0]) + (PercentAll(bs[1..]) + t)
  {
  }

  lemma {:induction false} PercentAllLength(bs: seq<Byte>)
    ensures |PercentAll(bs)| == 3 * |bs|
  {
    if bs != [] { PercentAllLength(bs[1..]); }
  }

  lemma {:induction false} ContinuationOf(bs: seq<Byte>, t: Text, bits: nat)
    requires AreContinuations(bs)
    ensures Continuation(PercentAll(bs) + t, |bs|, bits) == Some(AppendBits(bs, bits))
    decreases |bs|
  {
    if bs != [] {
      PercentAllSplit(bs, t);
      PercentByteOf(bs[0], PercentAll(bs[1..]) + t);
      ContinuationOf(bs[1..], t, bits * 64 + (bs[0] - 0x80));
    }
  }

  /** Decoding inverts encoding, and encoding fails on malformed text only. */
  lemma {:induction false} ComponentRoundTrip(t: Text)
    ensures EncodeComponent(t).Some? <==> WellFormedText(t)
    ensures WellFormedText(t) ==> DecodeComponent(EncodeComponent(t).value) == Some(t)
    decreases |t|
  {
    if t != [] && !IsLowSurrogate(t[0]) && (IsHighSurrogate(t[0]) ==> |t| > 1 && IsLowSurrogate(t[1])) {
      var n := if IsHighSurrogate(t[0]) then 2 else 1;
      ComponentRoundTrip(t[n..]);
      if WellFormedText(t) {
        var rest := EncodeComponent(t[n..]).value;
        if IsUnreserved(t[0]) {
          assert ([t[0]] + rest)[1..] == rest;
          assert t == [t[0]] + t[1..];
        } else {
          PointOfUnits(t);
          DecodesPoint(FirstPoint(t), rest);
          assert t == t[..n] + t[n..];
        }
      }
    }
  }

  // ------------------------------------------------------------------------ role scopes

  /** encodeRoleScope; None is an exception. */
  function EncodeRoleScope(resource: Text, scope: Text): Option<Text> {
    var r, s := EncodeComponent(resource), EncodeComponent(scope);
    if r.None? || s.None? then None else Some(r.value + [SLASH] + s.value)
  }

  function IndexOfSlash(t: Text): (i: nat)
    ensures i <= |t| && (i < |t| ==> t[i] == SLASH) && SLASH !in t[..i]
  {
    if t == [] || t[0] == SLASH then 0
    else
      var i := 1 + IndexOfSlash(t[1..]);
      assert t[..i] == [t[0]] + t[1..][..i - 1];
      i
  }

  /** decodeRoleScope; None is null. */
  function DecodeRoleScope(t: Text): Option<(Text, Text)> {
    var i := IndexOfSlash(t);
    if i == |t| || i < 1 || i == |t| - 1 then None
    else
      var r, s := DecodeComponent(t[..i]), DecodeComponent(t[i + 1..]);
      if r.None? || s.None? then None else Some((r.value, s.value))
  }

  lemma {:induction false} PercentAllHasNoSlash(bs: seq<Byte>)
    ensures SLASH !in PercentAll(bs)
  {
    if bs != [] { PercentAllHasNoSlash(bs[1..]); }
  }

  lemma {:induction false} EncodedHasNoSlash(t: Text)
    requires WellFormedText(t)
    ensures EncodeComponent(t).Some? && SLASH !in EncodeComponent(t).value
    ensures EncodeComponent(t).value == [] <==> t == []
    decreases |t|
  {
    if t != [] {
      EncodedHasNoSlash(if IsHighSurrogate(t[0]) then t[2..] else t[1..]);
      PercentAllHasNoSlash(Bytes(FirstPoint(t)));
      PercentAllLength(Bytes(FirstPoint(t)));
    }
  }

  lemma SlashIsFirst(r: Text, s: Text)
    requires SLASH !in r
    ensures IndexOfSlash(r + [SLASH] + s) == |r|
    ensures (r + [SLASH] + s)[..|r|] == r && (r + [SLASH] + s)[|r| + 1..] == s
  {
    var t := r + [SLASH] + s;
    var i := IndexOfSlash(t);
    assert t[|r|] == SLASH && forall k :: 0 <= k < |r| ==> t[k] == r[k] && r[k] in r;
    assert forall k :: 0 <= k < i ==> t[k] == t[..i][k] && t[..i][k] in t[..i];
  }

  /** Decoding a role scope gives back the pair exactly when neither part is empty; otherwise null. */
  lemma RoleScopeRoundTrip(resource: Text, scope: Text)
    requires WellFormedText(resource) && WellFormedText(scope)
    ensures EncodeRoleScope(resource, scope).Some?
    ensures DecodeRoleScope(EncodeRoleScope(resource, scope).value)
         == if resource != [] && scope != [] then Some((resource, scope)) else None
  {
    ComponentRoundTrip(resource);
    ComponentRoundTrip(scope);
    EncodedHasNoSlash(resource);
    EncodedHasNoSlash(scope);
    SlashIsFirst(EncodeComponent(resource).value, EncodeComponent(scope).value);
  }

  /** No two pairs are written alike, empty parts included. */
  lemma RoleScopeInjective(resource: Text, scope: Text, resource': Text, scope': Text)
    requires EncodeRoleScope(resource, scope).Some?
    requires EncodeRoleScope(resource, scope) == EncodeRoleScope(resource', scope')
    ensures resource == resource' && scope == scope'
  {
    ComponentRoundTrip(resource);
    ComponentRoundTrip(scope);
    ComponentRoundTrip(resource');
    ComponentRoundTrip(scope');
    EncodedHasNoSlash(resource);
    EncodedHasNoSlash(resource');
    SlashIsFirst(EncodeComponent(resource).value, EncodeComponent(scope).value);
    SlashIsFirst(EncodeComponent(resource').value, EncodeComponent(scope').value);
  }
}
