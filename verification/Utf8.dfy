/** UTF-8 as `bytes.decode()` reads it: no overlong forms, no surrogates, nothing above U+10FFFF. */
module Utf8 {
  import opened ByteStrings
  import opened Wrappers

  type Scalar = c: int | 0 <= c < 0xD800 || 0xE000 <= c < 0x11_0000
  type Text = seq<Scalar>

  function EncodeScalar(c: Scalar): (r: seq<Byte>)
    ensures 1 <= |r| <= 4
  {
    var c1 := c / 0x40;
    var c2 := c1 / 0x40;
    if c < 0x80 then [c]
    else if c < 0x800 then [0xC0 + c1, 0x80 + c % 0x40]
    else if c < 0x1_0000 then [0xE0 + c2, 0x80 + c1 % 0x40, 0x80 + c % 0x40]
    else [0xF0 + c2 / 0x40, 0x80 + c2 % 0x40, 0x80 + c1 % 0x40, 0x80 + c % 0x40]
  }

  function Encode(s: Text): seq<Byte> {
    if s == [] then [] else EncodeScalar(s[0]) + Encode(s[1..])
  }

  predicate IsContinuation(b: Byte) { 0x80 <= b < 0xC0 }

  /** One more continuation byte. */
  function Shift(high: int, b: Byte): int { high * 0x40 + (b as int - 0x80) }

  /** The first scalar and the number of bytes it took. */
  function DecodeScalar(b: seq<Byte>): (r: Option<(Scalar, nat)>)
    requires b != []
    ensures r.Some? ==> 1 <= r.value.1 <= |b|
  {
    var first: int := b[0];
    if first < 0x80 then Some((first, 1))
    else if 0xC2 <= first < 0xE0 && |b| >= 2 && IsContinuation(b[1]) then
      Some((Shift(first - 0xC0, b[1]), 2))
    else if 0xE0 <= first < 0xF0 && |b| >= 3 && IsContinuation(b[1]) && IsContinuation(b[2]) then
      var c := Shift(Shift(first - 0xE0, b[1]), b[2]);
      if 0x800 <= c && !(0xD800 <= c < 0xE000) then Some((c, 3)) else None
    else if 0xF0 <= first < 0xF5 && |b| >= 4 && IsContinuation(b[1]) && IsContinuation(b[2]) && IsContinuation(b[3]) then
      var c := Shift(Shift(Shift(first - 0xF0, b[1]), b[2]), b[3]);
      if 0x1_0000 <= c < 0x11_0000 then Some((c, 4)) else None
    else None
  }

  function Decode(b: seq<Byte>): Option<Text> {
    if b == [] then Some([])
    else
      match DecodeScalar(b)
      case None => None
      case Some((c, n)) =>
        match Decode(b[n..])
        case None => None
        case Some(s) => Some([c] + s)
  }

  lemma ScalarRoundTrip(c: Scalar, rest: seq<Byte>)
    ensures DecodeScalar(EncodeScalar(c) + rest) == Some((c, |EncodeScalar(c)|))
  {
  }

  /** A shifted-in byte can be taken out again. */
  lemma Unshift(high: int, b: Byte)
    requires IsContinuation(b)
    ensures Shift(high, b) / 0x40 == high && 0x80 + Shift(high, b) % 0x40 == b
  {
  }

  lemma ShiftBounds(high: int, b: Byte)
    requires IsContinuation(b)
    ensures high * 0x40 <= Shift(high, b) < (high + 1) * 0x40
  {
  }

  lemma ScalarIsCanonical(b: seq<Byte>)
    requires b != [] && DecodeScalar(b).Some?
    ensures b[..DecodeScalar(b).value.1] == EncodeScalar(DecodeScalar(b).value.0)
  {
    hide Shift;
    var (c, n) := DecodeScalar(b).value;
    var first: int := b[0];
    if n == 1 {
    } else if n == 2 {
      Unshift(first - 0xC0, b[1]);
      ShiftBounds(first - 0xC0, b[1]);
    } else if n == 3 {
      var high := Shift(first - 0xE0, b[1]);
      Unshift(first - 0xE0, b[1]);
      Unshift(high, b[2]);
      ShiftBounds(first - 0xE0, b[1]);
      ShiftBounds(high, b[2]);
    } else {
      var high := Shift(first - 0xF0, b[1]);
      Unshift(first - 0xF0, b[1]);
      Unshift(high, b[2]);
      Unshift(Shift(high, b[2]), b[3]);
    }
  }

  lemma {:induction false} RoundTrip(s: Text)
    ensures Decode(Encode(s)) == Some(s)
  {
    if s == [] {
    } else {
      ScalarRoundTrip(s[0], Encode(s[1..]));
      assert Encode(s) == EncodeScalar(s[0]) + Encode(s[1..]);
      assert Encode(s)[|EncodeScalar(s[0])|..] == Encode(s[1..]);
      RoundTrip(s[1..]);
      assert s == [s[0]] + s[1..];
    }
  }

  lemma EncodeMore(c: Scalar, s: Text)
    ensures Encode([c] + s) == EncodeScalar(c) + Encode(s)
  {
    assert ([c] + s)[1..] == s;
  }

  /** Only an encoding decodes: with `RoundTrip`, decoding is exactly the inverse of encoding. */
  lemma {:induction false} OnlyEncodings(b: seq<Byte>)
    requires Decode(b).Some?
    ensures Encode(Decode(b).value) == b
  {
    hide EncodeScalar, DecodeScalar;
    if b == [] {
    } else {
      ScalarIsCanonical(b);
      var (c, n) := DecodeScalar(b).value;
      var s := Decode(b[n..]).value;
      OnlyEncodings(b[n..]);
      assert Decode(b).value == [c] + s;
      EncodeMore(c, s);
      assert b == b[..n] + b[n..];
    }
  }
}
