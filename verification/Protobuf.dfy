/** The Protocol Buffers wire format: base 128 varints and message structure, as read by a decoder
    over Python slices, which clip at the end of the message instead of failing. */
module Protobuf {
  import opened ByteStrings
  import opened Utf8
  import opened Wrappers

  // ---------------------------------------------------------------- numbers

  /** A varint whose first byte, not its last, holds the digit `d`. */
  function More(d: nat, rest: Option<(nat, nat)>): Option<(nat, nat)> {
    match rest
    case None => None
    case Some((n, k)) => Some((d + 128 * n, k + 1))
  }

  /** The number a varint stands for and the bytes it took. */
  function Varint(b: seq<Byte>): (r: Option<(nat, nat)>)
    ensures r.Some? ==> 1 <= r.value.1 <= |b|
  {
    if b == [] then None
    else if b[0] < 128 then Some((b[0], 1))
    else More(b[0] % 128, Varint(b[1..]))
  }

  function PutVarint(n: nat): (r: seq<Byte>)
    ensures 1 <= |r|
  {
    if n < 128 then [n] else [128 + n % 128] + PutVarint(n / 128)
  }

  lemma {:induction false} VarintRoundTrip(n: nat, rest: seq<Byte>)
    ensures Varint(PutVarint(n) + rest) == Some((n, |PutVarint(n)|))
  {
    if n < 128 {
      assert ([n] + rest)[0] == n;
    } else {
      var more, b := PutVarint(n / 128), PutVarint(n) + rest;
      VarintRoundTrip(n / 128, rest);
      hide PutVarint;
      assert b[0] == 128 + n % 128 && b[1..] == more + rest;
      assert b[0] % 128 == n % 128;
    }
  }

  function LittleEndian(b: seq<Byte>): nat {
    if b == [] then 0 else b[0] + 256 * LittleEndian(b[1..])
  }

  function PutFixed(n: nat, size: nat): (r: seq<Byte>)
    ensures |r| == size
  {
    if size == 0 then [] else [n % 256] + PutFixed(n / 256, size - 1)
  }

  lemma {:induction false} FixedRoundTrip(n: nat, size: nat)
    requires n < Pow256(size)
    ensures LittleEndian(PutFixed(n, size)) == n
  {
    if size == 0 {
    } else {
      FixedRoundTrip(n / 256, size - 1);
    }
  }

  const TWO64: nat := 0x1_0000_0000_0000_0000

  lemma Pow256Of8()
    ensures Pow256(8) == TWO64
  {
    assert Pow256(2) == 0x1_0000;
    assert Pow256(4) == 0x1_0000_0000;
    assert Pow256(6) == 0x1_0000_0000_0000;
  }

  // ---------------------------------------------------------------- messages

  /** A decoded value: a varint or fixed64 is an int, the other wire types are byte strings. */
  datatype Value = Num(n: nat) | Bytes(bytes: seq<Byte>)
  datatype Field = Field(key: nat, v: Value)

  function Take(b: seq<Byte>, n: nat): seq<Byte> { if n < |b| then b[..n] else b }
  function Drop(b: seq<Byte>, n: nat): seq<Byte> { if n < |b| then b[n..] else [] }

  /** The value after a tag, and what follows it. */
  function ValueOf(kind: nat, b: seq<Byte>): (r: Option<(Value, seq<Byte>)>)
    ensures r.Some? ==> |r.value.1| <= |b| && (r.value.0.Bytes? ==> |r.value.0.bytes| <= |b|)
  {
    if kind == 0 then
      match Varint(b)
      case None => None
      case Some((n, k)) => Some((Num(n), b[k..]))
    else if kind == 1 then Some((Num(LittleEndian(Take(b, 8))), Drop(b, 8)))
    else if kind == 2 then
      match Varint(b)
      case None => None
      case Some((n, k)) => Some((Bytes(Take(b[k..], n)), Drop(b[k..], n)))
    else if kind == 5 then Some((Bytes(Take(b, 4)), Drop(b, 4)))
    else None
  }

  /** The fields of a message, in order. Every byte string is strictly shorter than the message. */
  function Fields(b: seq<Byte>): (r: Option<seq<Field>>)
    ensures r.Some? ==> forall f | f in r.value && f.v.Bytes? :: |f.v.bytes| < |b|
    decreases |b|
  {
    if b == [] then Some([])
    else
      match Varint(b)
      case None => None
      case Some((tag, k)) =>
        match ValueOf(tag % 8, b[k..])
        case None => None
        case Some((v, rest)) =>
          match Fields(rest)
          case None => None
          case Some(fs) => Some([Field(tag / 8, v)] + fs)
  }

  /** A field as a serializer sees it. */
  datatype Wire =
    | Plain(key: nat, n: nat)
    | Fixed64(key: nat, n: nat)
    | Lengthy(key: nat, bytes: seq<Byte>)
    | Fixed32(key: nat, bytes: seq<Byte>)

  predicate WellFormed(w: Wire) {
    match w
    case Plain(_, _) => true
    case Fixed64(_, n) => n < TWO64
    case Lengthy(_, _) => true
    case Fixed32(_, b) => |b| == 4
  }

  function PutField(w: Wire): (r: seq<Byte>)
    ensures r != []
  {
    match w
    case Plain(key, n) => PutVarint(8 * key) + PutVarint(n)
    case Fixed64(key, n) => PutVarint(8 * key + 1) + PutFixed(n, 8)
    case Lengthy(key, b) => PutVarint(8 * key + 2) + (PutVarint(|b|) + b)
    case Fixed32(key, b) => PutVarint(8 * key + 5) + b
  }

  function Message(ws: seq<Wire>): seq<Byte> {
    if ws == [] then [] else PutField(ws[0]) + Message(ws[1..])
  }

  function Read(w: Wire): Field {
    match w
    case Plain(key, n) => Field(key, Num(n))
    case Fixed64(key, n) => Field(key, Num(n))
    case Lengthy(key, b) => Field(key, Bytes(b))
    case Fixed32(key, b) => Field(key, Bytes(b))
  }

  function ReadAll(ws: seq<Wire>): (r: seq<Field>)
    ensures |r| == |ws|
  {
    seq(|ws|, i requires 0 <= i < |ws| => Read(ws[i]))
  }

  function Kind(w: Wire): nat {
    match w
    case Plain(_, _) => 0
    case Fixed64(_, _) => 1
    case Lengthy(_, _) => 2
    case Fixed32(_, _) => 5
  }

  function Payload(w: Wire): seq<Byte> {
    match w
    case Plain(_, n) => PutVarint(n)
    case Fixed64(_, n) => PutFixed(n, 8)
    case Lengthy(_, b) => PutVarint(|b|) + b
    case Fixed32(_, b) => b
  }

  lemma PayloadRoundTrip(w: Wire, rest: seq<Byte>)
    requires WellFormed(w)
    ensures ValueOf(Kind(w), Payload(w) + rest) == Some((Read(w).v, rest))
  {
    match w
    case Plain(_, n) => VarintRoundTrip(n, rest);
    case Fixed64(_, n) =>
      Pow256Of8();
      FixedRoundTrip(n, 8);
      assert Take(PutFixed(n, 8) + rest, 8) == PutFixed(n, 8);
    case Lengthy(_, b) =>
      VarintRoundTrip(|b|, b + rest);
      assert Payload(w) + rest == PutVarint(|b|) + (b + rest);
      assert (Payload(w) + rest)[|PutVarint(|b|)|..] == b + rest;
      assert Take(b + rest, |b|) == b;
    case Fixed32(_, b) =>
      assert Take(b + rest, 4) == b;
  }

  lemma FieldRoundTrip(w: Wire, rest: seq<Byte>)
    requires WellFormed(w) && Fields(rest).Some?
    ensures Fields(PutField(w) + rest) == Some([Read(w)] + Fields(rest).value)
  {
    hide Varint, ValueOf, PutVarint, Payload, More, PutField, WellFormed;
    var tag, b := 8 * Read(w).key + Kind(w), PutField(w) + rest;
    PutFieldSplits(w);
    assert b == PutVarint(tag) + (Payload(w) + rest);
    VarintRoundTrip(tag, Payload(w) + rest);
    assert b[|PutVarint(tag)|..] == Payload(w) + rest;
    PayloadRoundTrip(w, rest);
    assert tag % 8 == Kind(w) && tag / 8 == Read(w).key;
  }

  /** Reading a message inverts writing it, whatever its fields. */
  lemma {:induction false} FieldsRoundTrip(ws: seq<Wire>)
    requires forall w | w in ws :: WellFormed(w)
    ensures Fields(Message(ws)) == Some(ReadAll(ws))
  {
    hide Fields, PutField, WellFormed, Read;
    if ws == [] {
      FieldsOfNothing();
    } else {
      FieldsRoundTrip(ws[1..]);
      FieldRoundTrip(ws[0], Message(ws[1..]));
      assert ReadAll(ws) == [Read(ws[0])] + ReadAll(ws[1..]);
    }
  }

  lemma FieldsOfNothing()
    ensures Fields([]) == Some([])
  {
  }

  lemma PutFieldSplits(w: Wire)
    ensures PutField(w) == PutVarint(8 * Read(w).key + Kind(w)) + Payload(w)
  {
  }

  /** A value cut off by the end of the message is what there is of it, not an error. */
  lemma CutOffIsClipped(key: nat, n: nat, b: seq<Byte>)
    ensures |b| < n ==> Fields(PutVarint(8 * key + 2) + PutVarint(n) + b) == Some([Field(key, Bytes(b))])
    ensures |b| < 4 ==> Fields(PutVarint(8 * key + 5) + b) == Some([Field(key, Bytes(b))])
    ensures |b| < 8 ==> Fields(PutVarint(8 * key + 1) + b) == Some([Field(key, Num(LittleEndian(b)))])
  {
    hide Varint, PutVarint, Fields;
    FieldsOfNothing();
    assert PutVarint(8 * key + 2) + PutVarint(n) + b == PutVarint(8 * key + 2) + (PutVarint(n) + b);
    VarintRoundTrip(n, b);
    if |b| < n { OneField(8 * key + 2, PutVarint(n) + b); }
    if |b| < 4 { OneField(8 * key + 5, b); }
    if |b| < 8 { OneField(8 * key + 1, b); }
  }

  lemma OneField(tag: nat, rest: seq<Byte>)
    requires ValueOf(tag % 8, rest).Some? && ValueOf(tag % 8, rest).value.1 == []
    ensures Fields(PutVarint(tag) + rest) == Some([Field(tag / 8, ValueOf(tag % 8, rest).value.0)])
  {
    hide Varint, ValueOf, PutVarint;
    VarintRoundTrip(tag, rest);
    assert (PutVarint(tag) + rest)[|PutVarint(tag)|..] == rest;
    assert [Field(tag / 8, ValueOf(tag % 8, rest).value.0)] + [] == [Field(tag / 8, ValueOf(tag % 8, rest).value.0)];
  }

  // ---------------------------------------------------------------- the loops

  /** A varint whose first bytes have been added up to `n`, the next one counting `unit`. */
  function Resume(n: nat, unit: nat, read: nat, rest: Option<(nat, nat)>): Option<(nat, nat)> {
    match rest
    case None => None
    case Some((m, k)) => Some((n + unit * m, k + read))
  }

  lemma ResumeLast(n: nat, unit: nat, read: nat, d: nat)
    ensures Resume(n, unit, read, Some((d, 1))) == Some((n + d * unit, read + 1))
  {
    assert unit * d == d * unit;
  }

  lemma ResumeMore(n: nat, unit: nat, read: nat, d: nat, rest: Option<(nat, nat)>)
    ensures Resume(n, unit, read, More(d, rest)) == Resume(n + d * unit, unit * 128, read + 1, rest)
  {
    if rest.Some? {
      var m := rest.value.0;
      assert unit * (d + 128 * m) == d * unit + (unit * 128) * m;
    }
  }

  /** `unit` is 2 to the source's `shift`; the bits being added do not overlap. */
  method ReadVarint(b: seq<Byte>, start: nat) returns (r: Option<(nat, nat)>)
    requires start <= |b|
    ensures r == match Varint(b[start..]) case None => None case Some((n, k)) => Some((n, start + k))
  {
    hide Varint, Resume, More;
    Begin(Varint(b[start..]));
    var n: nat, unit: nat, i := 0, 1, start;
    while i < |b|
      invariant start <= i <= |b|
      invariant Varint(b[start..]) == Resume(n, unit, i - start, Varint(b[i..]))
      decreases |b| - i
    {
      var v: nat := b[i];
      ResumeLast(n, unit, i - start, v % 128);
      ResumeMore(n, unit, i - start, v % 128, Varint(b[i + 1..]));
      VarintStep(b, i);
      i := i + 1;
      n := n + v % 128 * unit;
      if v < 128 {
        return Some((n, i));
      }
      unit := unit * 128;
    }
    Exhausted(n, unit, i - start);
    assert b[i..] == [];
    r := None;
  }

  lemma VarintStep(b: seq<Byte>, i: nat)
    requires i < |b|
    ensures Varint(b[i..]) == if b[i] < 128 then Some((b[i] % 128, 1)) else More(b[i] % 128, Varint(b[i + 1..]))
  {
    assert b[i..][1..] == b[i + 1..];
  }

  lemma Begin(rest: Option<(nat, nat)>)
    ensures Resume(0, 1, 0, rest) == rest
  {
  }

  lemma Exhausted(n: nat, unit: nat, read: nat)
    ensures Resume(n, unit, read, Varint([])).None?
  {
  }

  function Prepend(out: seq<Field>, rest: Option<seq<Field>>): Option<seq<Field>> {
    match rest
    case None => None
    case Some(fs) => Some(out + fs)
  }

  /** `Fields`, one field on, in terms of positions. */
  lemma FieldsStep(b: seq<Byte>, start: nat, next: nat, f: Field, out: seq<Field>)
    requires start < |b| && Varint(b[start..]).Some?
    requires var (tag, k) := Varint(b[start..]).value;
             f.key == tag / 8 && ValueOf(tag % 8, b[start + k..]) == Some((f.v, Drop(b, next)))
    ensures Prepend(out, Fields(b[start..])) == Prepend(out + [f], Fields(Drop(b, next)))
  {
    hide Varint, ValueOf, Drop;
    var (tag, k) := Varint(b[start..]).value;
    assert b[start..][k..] == b[start + k..];
    if Fields(Drop(b, next)).Some? {
      assert out + ([f] + Fields(Drop(b, next)).value) == out + [f] + Fields(Drop(b, next)).value;
    }
  }

  /** Python's `b[i:j]` for `0 <= i <= j`. */
  function Slice(b: seq<Byte>, i: nat, j: nat): seq<Byte>
    requires i <= j
  {
    Take(Drop(b, i), j - i)
  }

  /** The value at `start`, and the position after it, which may be past the end. */
  method ReadValue(kind: nat, b: seq<Byte>, start: nat) returns (r: Option<(Value, nat)>)
    requires start <= |b|
    ensures r.None? ==> ValueOf(kind, b[start..]).None?
    ensures r.Some? ==> start <= r.value.1 && ValueOf(kind, b[start..]) == Some((r.value.0, Drop(b, r.value.1)))
  {
    hide Varint, LittleEndian;
    var i := start;
    assert Drop(b, i) == b[i..];
    if kind == 0 {
      var n := ReadVarint(b, i);
      if n.None? { return None; }
      r := Some((Num(n.value.0), n.value.1));
    } else if kind == 1 {
      r := Some((Num(LittleEndian(Slice(b, i, i + 8))), i + 8));
    } else if kind == 2 {
      var n := ReadVarint(b, i);
      if n.None? { return None; }
      i := n.value.1;
      r := Some((Bytes(Slice(b, i, i + n.value.0)), i + n.value.0));
    } else if kind == 5 {
      r := Some((Bytes(Slice(b, i, i + 4)), i + 4));
    } else {
      r := None;
    }
  }

  method ReadFields(b: seq<Byte>) returns (r: Option<seq<Field>>)
    ensures r == Fields(b)
  {
    hide Varint, ValueOf;
    var i, out := 0, [];
    assert Drop(b, 0) == b;
    if Fields(b).Some? { assert [] + Fields(b).value == Fields(b).value; }
    while i < |b|
      invariant 0 <= i
      invariant Fields(b) == Prepend(out, Fields(Drop(b, i)))
      decreases |b| - i
    {
      assert Drop(b, i) == b[i..];
      var tag := ReadVarint(b, i);
      if tag.None? { return None; }
      var kind, key := tag.value.0 % 8, tag.value.0 / 8;
      var value := ReadValue(kind, b, tag.value.1);
      if value.None? {
        assert b[i..][tag.value.1 - i..] == b[tag.value.1..];
        return None;
      }
      FieldsStep(b, i, value.value.1, Field(key, value.value.0), out);
      out := out + [Field(key, value.value.0)];
      i := value.value.1;
    }
    assert Drop(b, i) == [] && out + [] == out;
    r := Some(out);
  }
}
