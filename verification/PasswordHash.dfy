/** The stored password record (server/domain/password.ts): four fields joined by colons, two of them
    base64url without padding (section 5 of RFC 4648). */
module PasswordHash {
  import opened JsText
  import opened Options

  type Byte = n: nat | n < 256

  const EQUALS: CodeUnit := 61
  const UNDERSCORE: CodeUnit := 95
  const ITERATIONS: nat := 100000
  const MAX_ITERATIONS: int := 210000

  /** "pbkdf2-sha256". */
  const FORMAT: Text := [112, 98, 107, 100, 102, 50, 45, 115, 104, 97, 50, 53, 54]

  // -------------------------------------------------------------------------- base64

  type Sextet = n: nat | n < 64

  function Digit(d: Sextet): CodeUnit {
    if d < 26 then 65 + d else if d < 52 then 71 + d else if d < 62 then d - 4 else if d == 62 then PLUS else SLASH
  }

  function DigitValue(c: CodeUnit): Option<Sextet> {
    if 65 <= c <= 90 then Some(c - 65)
    else if 97 <= c <= 122 then Some(c - 71)
    else if 48 <= c <= 57 then Some(c + 4)
    else if c == PLUS then Some(62)
    else if c == SLASH then Some(63)
    else None
  }

  /** The digits of three bytes, of two and of one. */
  function Group(a: Byte, b: Byte, c: Byte): (t: Text)
    ensures |t| == 4
  {
    [Digit(a / 4), Digit(a % 4 * 16 + b / 16), Digit(b % 16 * 4 + c / 64), Digit(c % 64)]
  }

  function GroupOfTwo(a: Byte, b: Byte): (t: Text)
    ensures |t| == 3
  {
    [Digit(a / 4), Digit(a % 4 * 16 + b / 16), Digit(b % 16 * 4)]
  }

  function GroupOfOne(a: Byte): (t: Text)
    ensures |t| == 2
  {
    [Digit(a / 4), Digit(a % 4 * 16)]
  }

  /** btoa. */
  function Base64(bytes: seq<Byte>): Text
    decreases |bytes|
  {
    if bytes == [] then []
    else if |bytes| == 1 then GroupOfOne(bytes[0]) + [EQUALS, EQUALS]
    else if |bytes| == 2 then GroupOfTwo(bytes[0], bytes[1]) + [EQUALS]
    else Group(bytes[0], bytes[1], bytes[2]) + Base64(bytes[3..])
  }

  function Replaced(t: Text, from: CodeUnit, to: CodeUnit): (r: Text)
    ensures |r| == |t|
  {
    seq(|t|, i requires 0 <= i < |t| => if t[i] == from then to else t[i])
  }

  /** replace(/=+$/g, ''). */
  function WithoutPadding(t: Text): Text {
    if t != [] && t[|t| - 1] == EQUALS then WithoutPadding(t[..|t| - 1]) else t
  }

  function EncodeBase64Url(bytes: seq<Byte>): Text {
    WithoutPadding(Replaced(Replaced(Base64(bytes), PLUS, MINUS), SLASH, UNDERSCORE))
  }

  function Repeat(c: CodeUnit, n: nat): (r: Text)
    ensures |r| == n
  {
    seq(n, i requires 0 <= i < n => c)
  }

  /** padEnd(Math.ceil(length / 4) * 4, '='). */
  function Padded(t: Text): Text {
    t + Repeat(EQUALS, (4 - |t| % 4) % 4)
  }

  predicate IsSpace(c: CodeUnit) {
    c in {9, 10, 12, 13, 32}
  }

  function WithoutSpaces(t: Text): Text {
    if t == [] then [] else (if IsSpace(t[0]) then [] else [t[0]]) + WithoutSpaces(t[1..])
  }

  /** At most two padding characters, and only at the end of whole groups. */
  function WithoutGroupPadding(t: Text): Text {
    if |t| % 4 == 0 && |t| >= 1 && t[|t| - 1] == EQUALS then
      if t[|t| - 2] == EQUALS then t[..|t| - 2] else t[..|t| - 1]
    else t
  }

  /** The bytes of digits without padding; None on a foreign character or a single left-over digit. */
  function Decoded(t: Text): Option<seq<Byte>>
    decreases |t|
  {
    if t == [] then Some([])
    else if |t| == 1 || DigitValue(t[0]).None? || DigitValue(t[1]).None? then None
    else
      var a, b := DigitValue(t[0]).value, DigitValue(t[1]).value;
      if |t| == 2 then Some([a * 4 + b / 16])
      else if DigitValue(t[2]).None? then None
      else
        var c := DigitValue(t[2]).value;
        if |t| == 3 then Some([a * 4 + b / 16, b % 16 * 16 + c / 4])
        else if DigitValue(t[3]).None? then None
        else
          var rest := Decoded(t[4..]);
          if rest.None? then None
          else Some([a * 4 + b / 16, b % 16 * 16 + c / 4, c % 4 * 64 + DigitValue(t[3]).value] + rest.value)
  }

  /** atob; None is the exception. */
  function Atob(t: Text): Option<seq<Byte>> {
    Decoded(WithoutGroupPadding(WithoutSpaces(t)))
  }

  function DecodeBase64Url(t: Text): Option<seq<Byte>> {
    Atob(Padded(Replaced(Replaced(t, MINUS, PLUS), UNDERSCORE, SLASH)))
  }

  // ---------------------------------------------------------------------- round trip

  /** The digits of base64 alone. */
  function Digits(bytes: seq<Byte>): Text
    decreases |bytes|
  {
    if bytes == [] then []
    else if |bytes| == 1 then GroupOfOne(bytes[0])
    else if |bytes| == 2 then GroupOfTwo(bytes[0], bytes[1])
    else Group(bytes[0], bytes[1], bytes[2]) + Digits(bytes[3..])
  }

  predicate IsDigit(c: CodeUnit) {
    DigitValue(c).Some?
  }

  predicate AreDigits(t: Text) {
    forall i :: 0 <= i < |t| ==> IsDigit(t[i])
  }

  lemma DigitOf(d: Sextet)
    ensures DigitValue(Digit(d)) == Some(d)
  {
  }

  lemma GroupsAreDigits(a: Byte, b: Byte, c: Byte)
    ensures AreDigits(Group(a, b, c)) && AreDigits(GroupOfTwo(a, b)) && AreDigits(GroupOfOne(a))
  {
    DigitOf(a / 4);
    DigitOf(a % 4 * 16 + b / 16);
    DigitOf(a % 4 * 16);
    DigitOf(b % 16 * 4 + c / 64);
    DigitOf(b % 16 * 4);
    DigitOf(c % 64);
  }

  lemma PaddedAppend(g: Text, t: Text)
    requires |g| == 4
    ensures Padded(g + t) == g + Padded(t)
    ensures |g + t| % 4 == |t| % 4
  {
    assert (4 - |g + t| % 4) % 4 == (4 - |t| % 4) % 4;
  }

  lemma DigitsAppend(g: Text, t: Text)
    requires AreDigits(g) && AreDigits(t)
    ensures AreDigits(g + t)
  {
  }

  lemma ShortGroupsPadded(a: Byte, b: Byte)
    ensures Padded(GroupOfTwo(a, b)) == GroupOfTwo(a, b) + [EQUALS]
    ensures Padded(GroupOfOne(a)) == GroupOfOne(a) + [EQUALS, EQUALS]
  {
    assert Repeat(EQUALS, 1) == [EQUALS] && Repeat(EQUALS, 2) == [EQUALS, EQUALS];
  }

  lemma {:induction false} Base64IsPaddedDigits(bytes: seq<Byte>)
    ensures AreDigits(Digits(bytes)) && |Digits(bytes)| % 4 != 1
    ensures Base64(bytes) == Padded(Digits(bytes))
    decreases |bytes|
  {
    if |bytes| >= 3 {
      Base64IsPaddedDigits(bytes[3..]);
      var g, t := Group(bytes[0], bytes[1], bytes[2]), Digits(bytes[3..]);
      assert Digits(bytes) == g + t && Base64(bytes) == g + Base64(bytes[3..]);
      GroupsAreDigits(bytes[0], bytes[1], bytes[2]);
      DigitsAppend(g, t);
      PaddedAppend(g, t);
    } else if |bytes| == 2 {
      GroupsAreDigits(bytes[0], bytes[1], 0);
      ShortGroupsPadded(bytes[0], bytes[1]);
    } else if |bytes| == 1 {
      GroupsAreDigits(bytes[0], 0, 0);
      ShortGroupsPadded(bytes[0], 0);
    }
  }

  lemma GroupDecodes(a: Byte, b: Byte, c: Byte, rest: Text)
    ensures Decoded(Group(a, b, c) + rest) == (match Decoded(rest) case None => None case Some(bs) => Some([a, b, c] + bs))
  {
    var w, x, y, z: Sextet := a / 4, a % 4 * 16 + b / 16, b % 16 * 4 + c / 64, c % 64;
    DigitOf(w);
    DigitOf(x);
    DigitOf(y);
    DigitOf(z);
    var t := Group(a, b, c) + rest;
    assert t == [Digit(w), Digit(x), Digit(y), Digit(z)] + rest && t[4..] == rest;
    assert w * 4 + x / 16 == a && x % 16 * 16 + y / 4 == b && y % 4 * 64 + z == c;
  }

  lemma GroupOfTwoDecodes(a: Byte, b: Byte)
    ensures Decoded(GroupOfTwo(a, b)) == Some([a, b])
  {
    var w, x, y: Sextet := a / 4, a % 4 * 16 + b / 16, b % 16 * 4;
    DigitOf(w);
    DigitOf(x);
    DigitOf(y);
    assert GroupOfTwo(a, b) == [Digit(w), Digit(x), Digit(y)];
    assert w * 4 + x / 16 == a && x % 16 * 16 + y / 4 == b;
  }

  lemma GroupOfOneDecodes(a: Byte)
    ensures Decoded(GroupOfOne(a)) == Some([a])
  {
    var w, x: Sextet := a / 4, a % 4 * 16;
    DigitOf(w);
    DigitOf(x);
    assert GroupOfOne(a) == [Digit(w), Digit(x)] && w * 4 + x / 16 == a;
  }

  lemma {:induction false} DigitsDecode(bytes: seq<Byte>)
    ensures Decoded(Digits(bytes)) == Some(bytes)
    decreases |bytes|
  {
    if |bytes| >= 3 {
      DigitsDecode(bytes[3..]);
      GroupDecodes(bytes[0], bytes[1], bytes[2], Digits(bytes[3..]));
      assert bytes == [bytes[0], bytes[1], bytes[2]] + bytes[3..];
    } else if |bytes| == 2 {
      GroupOfTwoDecodes(bytes[0], bytes[1]);
      assert bytes == [bytes[0], bytes[1]];
    } else if |bytes| == 1 {
      GroupOfOneDecodes(bytes[0]);
      assert bytes == [bytes[0]];
    }
  }

  lemma {:induction false} PaddingIsRemoved(t: Text, n: nat)
    requires t == [] || t[|t| - 1] != EQUALS
    ensures WithoutPadding(t + Repeat(EQUALS, n)) == t
    decreases n
  {
    if n == 0 {
      assert t + Repeat(EQUALS, 0) == t;
    } else {
      var u := t + Repeat(EQUALS, n);
      assert u[..|u| - 1] == t + Repeat(EQUALS, n - 1);
      PaddingIsRemoved(t, n - 1);
    }
  }

  lemma {:induction false} DigitsHaveNoSpace(t: Text, n: nat)
    requires AreDigits(t)
    ensures WithoutSpaces(t + Repeat(EQUALS, n)) == t + Repeat(EQUALS, n)
    decreases |t|, n
  {
    var u := t + Repeat(EQUALS, n);
    if t != [] {
      assert u[1..] == t[1..] + Repeat(EQUALS, n);
      DigitsHaveNoSpace(t[1..], n);
    } else if n > 0 {
      assert u[1..] == [] + Repeat(EQUALS, n - 1);
      DigitsHaveNoSpace([], n - 1);
    }
  }

  /** The url-safe alphabet, and back. */
  function UrlSafe(t: Text): Text {
    Replaced(Replaced(t, PLUS, MINUS), SLASH, UNDERSCORE)
  }

  lemma EncodedIsUrlSafe(bytes: seq<Byte>)
    ensures EncodeBase64Url(bytes) == UrlSafe(Digits(bytes))
  {
    Base64IsPaddedDigits(bytes);
    var d, n := Digits(bytes), (4 - |Digits(bytes)| % 4) % 4;
    assert UrlSafe(d + Repeat(EQUALS, n)) == UrlSafe(d) + Repeat(EQUALS, n);
    PaddingIsRemoved(UrlSafe(d), n);
  }

  lemma UrlSafeIsReversed(t: Text)
    requires AreDigits(t)
    ensures Replaced(Replaced(UrlSafe(t), MINUS, PLUS), UNDERSCORE, SLASH) == t
  {
    var u := Replaced(Replaced(UrlSafe(t), MINUS, PLUS), UNDERSCORE, SLASH);
    forall i | 0 <= i < |t| ensures u[i] == t[i] { assert IsDigit(t[i]); }
  }

  lemma GroupPaddingIsRemoved(t: Text)
    requires AreDigits(t) && |t| % 4 != 1
    ensures WithoutGroupPadding(Padded(t)) == t
  {
    var n := (4 - |t| % 4) % 4;
    assert t != [] ==> IsDigit(t[|t| - 1]);
    PaddedLength(t);
    if n == 0 {
      assert t + Repeat(EQUALS, 0) == t;
    } else if n == 1 {
      OnePaddingRemoved(t);
    } else {
      TwoPaddingRemoved(t);
    }
  }

  lemma PaddedLength(t: Text)
    requires |t| % 4 != 1
    ensures |Padded(t)| % 4 == 0 && (4 - |t| % 4) % 4 <= 2
    ensures Padded(t) == t + Repeat(EQUALS, (4 - |t| % 4) % 4)
  {
    var q, r := |t| / 4, |t| % 4;
    assert |t| == 4 * q + r;
  }

  lemma OnePaddingRemoved(t: Text)
    requires t != [] && t[|t| - 1] != EQUALS && (|t| + 1) % 4 == 0
    ensures WithoutGroupPadding(t + Repeat(EQUALS, 1)) == t
  {
    var u := t + Repeat(EQUALS, 1);
    assert u[|u| - 1] == EQUALS && u[|u| - 2] == t[|t| - 1] && u[..|u| - 1] == t;
  }

  lemma TwoPaddingRemoved(t: Text)
    requires (|t| + 2) % 4 == 0
    ensures WithoutGroupPadding(t + Repeat(EQUALS, 2)) == t
  {
    var u := t + Repeat(EQUALS, 2);
    assert u[|u| - 1] == EQUALS && u[|u| - 2] == EQUALS && u[..|u| - 2] == t;
  }

  lemma AtobOfPadded(t: Text)
    requires AreDigits(t) && |t| % 4 != 1
    ensures Atob(Padded(t)) == Decoded(t)
  {
    DigitsHaveNoSpace(t, (4 - |t| % 4) % 4);
    GroupPaddingIsRemoved(t);
  }

  /** Decoding inverts encoding for every number of bytes. */
  lemma Base64UrlRoundTrip(bytes: seq<Byte>)
    ensures DecodeBase64Url(EncodeBase64Url(bytes)) == Some(bytes)
  {
    var d := Digits(bytes);
    EncodedIsUrlSafe(bytes);
    Base64IsPaddedDigits(bytes);
    UrlSafeIsReversed(d);
    AtobOfPadded(d);
    DigitsDecode(bytes);
  }

  // --------------------------------------------------------------------- the record

  /** split(':'). */
  function Split(t: Text): (fields: seq<Text>)
    ensures fields != []
  {
    if t == [] then [[]]
    else
      var rest := Split(t[1..]);
      if t[0] == COLON then [[]] + rest else [[t[0]] + rest[0]] + rest[1..]
  }

  lemma {:induction false} SplitJoin(first: Text, rest: Text)
    requires COLON !in first
    ensures Split(first) == [first]
    ensures Split(first + [COLON] + rest) == [first] + Split(rest)
  {
    var t := first + [COLON] + rest;
    if first == [] {
      assert t[1..] == rest;
    } else {
      assert t[1..] == first[1..] + [COLON] + rest;
      SplitJoin(first[1..], rest);
      assert [first[0]] + first[1..] == first;
    }
  }

  lemma UrlSafeHasNoColon(t: Text)
    requires AreDigits(t)
    ensures COLON !in UrlSafe(t)
  {
    forall i | 0 <= i < |t| ensures UrlSafe(t)[i] != COLON { assert IsDigit(t[i]); }
  }

  /** hashPassword for the salt that was drawn; derive is PBKDF2. */
  function HashPassword(password: Text, salt: seq<Byte>, derive: (Text, seq<Byte>, int) -> seq<Byte>): Text {
    Join([FORMAT, Decimal(ITERATIONS), EncodeBase64Url(salt), EncodeBase64Url(derive(password, salt, ITERATIONS))], COLON)
  }

  /** parseIterations; number is Number(), None for what is not an integer. */
  function ParseIterations(t: Text, number: Text -> Option<int>): Option<int> {
    var n := number(t);
    if n.None? || n.value < 1 || n.value > MAX_ITERATIONS then None else n
  }

  /** Number() reads the numbers that are accepted as they are written. */
  ghost predicate ReadsDecimals(number: Text -> Option<int>) {
    forall n: nat :: n <= MAX_ITERATIONS ==> number(Decimal(n)) == Some(n)
  }

  /** verifyPassword; None is an exception. */
  function VerifyPassword(
      hash: Text, password: Text, derive: (Text, seq<Byte>, int) -> seq<Byte>, number: Text -> Option<int>): Option<bool>
  {
    var fields := Split(hash);
    if fields[0] != FORMAT || |fields| < 4 then None
    else
      var n, salt, key := ParseIterations(fields[1], number), DecodeBase64Url(fields[2]), DecodeBase64Url(fields[3]);
      if n.None? || salt.None? || key.None? then None
      else Some(derive(password, salt.value, n.value) == key.value)
  }

  lemma {:induction false} SplitJoinAll(fields: seq<Text>)
    requires fields != [] && forall f :: f in fields ==> COLON !in f
    ensures Split(Join(fields, COLON)) == fields
    decreases |fields|
  {
    assert fields[0] in fields;
    if |fields| == 1 {
      SplitJoin(fields[0], []);
    } else {
      SplitJoin(fields[0], Join(fields[1..], COLON));
      SplitJoinAll(fields[1..]);
      assert fields == [fields[0]] + fields[1..];
    }
  }

  /** A password verifies against the record of another exactly when their keys for its salt are equal;
      in particular every password verifies against its own record. */
  lemma VerifyIffSameKey(
      p: Text, q: Text, salt: seq<Byte>, derive: (Text, seq<Byte>, int) -> seq<Byte>, number: Text -> Option<int>)
    requires ReadsDecimals(number)
    ensures VerifyPassword(HashPassword(p, salt, derive), q, derive, number)
         == Some(derive(q, salt, ITERATIONS) == derive(p, salt, ITERATIONS))
    ensures VerifyPassword(HashPassword(p, salt, derive), p, derive, number) == Some(true)
  {
    var key := derive(p, salt, ITERATIONS);
    EncodedIsUrlSafe(salt);
    EncodedIsUrlSafe(key);
    Base64IsPaddedDigits(salt);
    Base64IsPaddedDigits(key);
    UrlSafeHasNoColon(Digits(salt));
    UrlSafeHasNoColon(Digits(key));
    DecimalDigits(ITERATIONS);
    SplitJoinAll([FORMAT, Decimal(ITERATIONS), EncodeBase64Url(salt), EncodeBase64Url(key)]);
    Base64UrlRoundTrip(salt);
    Base64UrlRoundTrip(key);
  }

  // -------------------------------------------------------------------- comparison

  lemma XorZero(a: bv8, b: bv8)
    ensures a ^ b == 0 <==> a == b
  {
  }

  lemma OrZero(a: bv8, b: bv8)
    ensures a | b == 0 <==> a == 0 && b == 0
  {
  }

  /** timingSafeEqual: the loop runs to the end whatever it finds. */
  method TimingSafeEqual(a: array<bv8>, b: array<bv8>) returns (equal: bool)
    ensures equal <==> a[..] == b[..]
  {
    if a.Length != b.Length { return false; }
    var result: bv8 := 0;
    for i := 0 to a.Length
      invariant result == 0 <==> a[..i] == b[..i]
    {
      XorZero(a[i], b[i]);
      OrZero(result, a[i] ^ b[i]);
      result := result | (a[i] ^ b[i]);
      assert a[..i + 1] == a[..i] + [a[i]] && b[..i + 1] == b[..i] + [b[i]];
    }
    assert a[..] == a[..a.Length] && b[..] == b[..b.Length];
    equal := result == 0;
  }
}
