/** Reading one WebSocket frame (sections 5.2 and 5.3 of RFC 6455) from a stream that may deliver it
    in pieces of any size. `None` stands for a raised ValueError. */
module WebSocket {
  import opened Arithmetic
  import opened ByteStrings
  import opened Wrappers

  const MAX_SIZE := 4096

  // ---------------------------------------------------------------- the wire

  /** Exclusive or of the lowest `k` bits. */
  function XorBits(a: nat, b: nat, k: nat): (r: nat)
    ensures r < Pow2(k)
  {
    if k == 0 then 0 else 2 * XorBits(a / 2, b / 2, k - 1) + (a + b) % 2
  }

  lemma SumParity(a: nat, b: nat)
    ensures (a + b) % 2 == if a % 2 == b % 2 then 0 else 1
  {
    var ha, hb, da, db := a / 2, b / 2, a % 2, b % 2;
    assert a == 2 * ha + da && b == 2 * hb + db;
    if da == db {
      Halves(a + b, ha + hb + da, 0);
    } else {
      Halves(a + b, ha + hb, 1);
    }
  }

  lemma Halves(n: nat, y: nat, d: nat)
    requires n == 2 * y + d && d < 2
    ensures n / 2 == y && n % 2 == d
  {
  }

  lemma XorBitsStep(a: nat, b: nat, n: nat)
    requires n > 0
    ensures XorBits(a, b, n) / 2 == XorBits(a / 2, b / 2, n - 1)
    ensures XorBits(a, b, n) % 2 == if a % 2 == b % 2 then 0 else 1
  {
    SumParity(a, b);
    var y, d := XorBits(a / 2, b / 2, n - 1), if a % 2 == b % 2 then 0 else 1;
    assert XorBits(a, b, n) == 2 * y + d;
    Halves(XorBits(a, b, n), y, d);
  }

  lemma {:induction false} XorBitsTwice(a: nat, b: nat, k: nat)
    requires a < Pow2(k)
    ensures XorBits(XorBits(a, b, k), b, k) == a
  {
    if k > 0 {
      var x := XorBits(a, b, k);
      XorBitsTwice(a / 2, b / 2, k - 1);
      XorBitsStep(a, b, k);
      XorBitsStep(x, b, k);
      hide XorBits;
      assert XorBits(x, b, k) == 2 * (a / 2) + a % 2;
    }
  }

  lemma Pow2Of8()
    ensures Pow2(8) == 256
  {
    assert Pow2(4) == 16;
  }

  function Xor(a: Byte, b: Byte): Byte {
    Pow2Of8();
    XorBits(a, b, 8)
  }

  lemma XorTwice(a: Byte, b: Byte)
    ensures Xor(Xor(a, b), b) == a
  {
    hide XorBits;
    Pow2Of8();
    XorBitsTwice(a, b, 8);
  }

  /** The bit of `n` that counts 2 to the `k`. */
  function Bit(n: nat, k: nat): (r: nat)
    ensures r < 2
  {
    if k == 0 then n % 2 else Bit(n / 2, k - 1)
  }

  lemma {:induction false} XorBitsAt(a: nat, b: nat, n: nat, k: nat)
    requires k < n
    ensures Bit(XorBits(a, b, n), k) == if Bit(a, k) == Bit(b, k) then 0 else 1
  {
    XorBitsStep(a, b, n);
    hide XorBits;
    var x, y := XorBits(a, b, n), XorBits(a / 2, b / 2, n - 1);
    if k > 0 {
      XorBitsAt(a / 2, b / 2, n - 1, k - 1);
      assert Bit(x, k) == Bit(y, k - 1);
    }
  }

  /** A bit of the exclusive or is set exactly when the bits differ. */
  lemma XorByBits(a: Byte, b: Byte, k: nat)
    requires k < 8
    ensures Bit(Xor(a, b), k) == 1 <==> Bit(a, k) != Bit(b, k)
  {
    XorBitsAt(a, b, 8, k);
  }

  /** Masking, and unmasking. */
  function Masked(payload: seq<Byte>, mask: seq<Byte>): (r: seq<Byte>)
    requires |mask| == 4
    ensures |r| == |payload|
  {
    seq(|payload|, i requires 0 <= i < |payload| => Xor(payload[i], mask[i % 4]))
  }

  lemma MaskedTwice(payload: seq<Byte>, mask: seq<Byte>)
    requires |mask| == 4
    ensures Masked(Masked(payload, mask), mask) == payload
  {
    hide Xor;
    forall i | 0 <= i < |payload| ensures Masked(Masked(payload, mask), mask)[i] == payload[i] {
      XorTwice(payload[i], mask[i % 4]);
    }
  }

  /** Octet `i` is combined, bit by bit, with octet `i` modulo 4 of the mask (section 5.3). */
  lemma MaskedByBits(payload: seq<Byte>, mask: seq<Byte>, i: nat, k: nat)
    requires |mask| == 4 && i < |payload| && k < 8
    ensures Bit(Masked(payload, mask)[i], k) == 1 <==> Bit(payload[i], k) != Bit(mask[i % 4], k)
  {
    hide Xor, Bit;
    XorByBits(payload[i], mask[i % 4], k);
  }

  function BigEndian(b: seq<Byte>): nat {
    if b == [] then 0 else 256 * BigEndian(b[..|b| - 1]) + b[|b| - 1]
  }

  function PutBigEndian(n: nat, size: nat): (r: seq<Byte>)
    ensures |r| == size
  {
    if size == 0 then [] else PutBigEndian(n / 256, size - 1) + [n % 256]
  }

  lemma {:induction false} BigEndianRoundTrip(n: nat, size: nat)
    requires n < Pow256(size)
    ensures BigEndian(PutBigEndian(n, size)) == n
  {
    if size == 0 {
    } else {
      BigEndianRoundTrip(n / 256, size - 1);
      assert PutBigEndian(n, size)[..size - 1] == PutBigEndian(n / 256, size - 1);
    }
  }

  lemma {:induction false} BigEndianIsCanonical(b: seq<Byte>)
    ensures PutBigEndian(BigEndian(b), |b|) == b
    ensures BigEndian(b) < Pow256(|b|)
  {
    if b == [] {
    } else {
      BigEndianIsCanonical(b[..|b| - 1]);
      assert b == b[..|b| - 1] + [b[|b| - 1]];
    }
  }

  /** The first octet is the most significant. */
  lemma {:induction false} MostSignificantFirst(b: seq<Byte>)
    requires b != []
    ensures BigEndian(b) == b[0] * Pow256(|b| - 1) + BigEndian(b[1..])
  {
    if |b| > 1 {
      var init := b[..|b| - 1];
      MostSignificantFirst(init);
      BigEndianStep(b);
      BigEndianStep(b[1..]);
      assert init[1..] == b[1..][..|b| - 2];
      hide BigEndian;
      Scale(b[0], |b| - 2);
    }
  }

  lemma BigEndianStep(b: seq<Byte>)
    requires b != []
    ensures BigEndian(b) == 256 * BigEndian(b[..|b| - 1]) + b[|b| - 1]
  {
  }

  lemma Scale(n: nat, k: nat)
    ensures 256 * (n * Pow256(k)) == n * Pow256(k + 1)
  {
    assert Pow256(k + 1) == 256 * Pow256(k);
  }

  lemma Small(n: nat)
    requires n <= MAX_SIZE
    ensures n < Pow256(2) && n < Pow256(8)
  {
    assert Pow256(2) == 0x1_0000;
    assert Pow256(4) == 0x1_0000 * Pow256(2);
    assert Pow256(6) == 0x1_0000 * Pow256(4);
    assert Pow256(8) == 0x1_0000 * Pow256(6);
  }

  // ---------------------------------------------------------------- frames

  /** How a length is written. The reader does not insist on the shortest form. */
  datatype Form = Seven | Sixteen | SixtyFour

  datatype Frame = Frame(opcode: int, payload: seq<Byte>)

  predicate Fits(size: nat, form: Form) { form.Seven? ==> size <= 125 }

  function Length(size: nat, form: Form, flag: Byte): seq<Byte>
    requires Fits(size, form) && (flag == 0 || flag == 128)
  {
    match form
    case Seven => [flag + size]
    case Sixteen => [flag + 126] + PutBigEndian(size, 2)
    case SixtyFour => [flag + 127] + PutBigEndian(size, 8)
  }

  predicate IsMask(mask: Option<seq<Byte>>) { mask.Some? ==> |mask.value| == 4 }

  function Head(opcode: int, size: nat, form: Form, masked: bool): seq<Byte>
    requires 0 <= opcode < 16 && Fits(size, form)
  {
    [128 + opcode] + Length(size, form, if masked then 128 else 0)
  }

  /** The frame on the wire: final, no extension bits, with or without a mask. */
  function Encode(f: Frame, form: Form, mask: Option<seq<Byte>>): seq<Byte>
    requires 0 <= f.opcode < 16 && Fits(|f.payload|, form) && IsMask(mask)
  {
    Head(f.opcode, |f.payload|, form, mask.Some?) +
    (if mask.Some? then mask.value + Masked(f.payload, mask.value) else f.payload)
  }

  datatype Opening = Opening(opcode: int, size: nat, at: nat, form: Form)

  /** Flags, opcode and length, and where the rest begins. */
  function Open(b: seq<Byte>, masked: bool): (r: Option<Opening>)
    ensures r.Some? ==> 0 <= r.value.opcode < 16 && r.value.size <= MAX_SIZE && 2 <= r.value.at <= |b| && Fits(r.value.size, r.value.form)
  {
    if |b| < 2 || b[0] < 128 || b[0] / 16 % 8 != 0 || (b[1] >= 128) != masked then None
    else
      var size := b[1] % 128;
      var form := if size == 126 then Sixteen else if size == 127 then SixtyFour else Seven;
      var at := if size == 126 then 4 else if size == 127 then 10 else 2;
      if |b| < at then None
      else
        var n := if form.Seven? then size else BigEndian(b[2..at]);
        if n > MAX_SIZE then None else Some(Opening(b[0] % 16, n, at, form))
  }

  /** The frame at the front of some bytes, and the number of bytes it takes. */
  function Parse(b: seq<Byte>, masked: bool): (r: Option<(Frame, nat)>)
    ensures r.Some? ==> r.value.1 <= |b|
  {
    match Open(b, masked)
    case None => None
    case Some(o) =>
      var start := if masked then o.at + 4 else o.at;
      if |b| < start + o.size then None
      else
        var body := b[start..start + o.size];
        Some((Frame(o.opcode, if masked then Masked(body, b[o.at..start]) else body), start + o.size))
  }

  lemma OpenHead(opcode: int, size: nat, form: Form, masked: bool, rest: seq<Byte>)
    requires 0 <= opcode < 16 && Fits(size, form) && size <= MAX_SIZE
    ensures var head := Head(opcode, size, form, masked);
            Open(head + rest, masked) == Some(Opening(opcode, size, |head|, form))
  {
    hide BigEndian, PutBigEndian, Pow256;
    var head := Head(opcode, size, form, masked);
    var b := head + rest;
    Small(size);
    assert b[0] == 128 + opcode && b[0] / 16 % 8 == 0 && b[0] % 16 == opcode;
    match form
    case Seven =>
    case Sixteen =>
      BigEndianRoundTrip(size, 2);
      assert b[2..4] == PutBigEndian(size, 2);
    case SixtyFour =>
      BigEndianRoundTrip(size, 8);
      assert b[2..10] == PutBigEndian(size, 8);
  }

  /** Every frame of up to 4096 bytes, in any length form, reads back, and nothing after it is touched. */
  lemma ReadsBack(f: Frame, form: Form, mask: Option<seq<Byte>>, rest: seq<Byte>)
    requires 0 <= f.opcode < 16 && Fits(|f.payload|, form) && IsMask(mask) && |f.payload| <= MAX_SIZE
    ensures Parse(Encode(f, form, mask) + rest, mask.Some?) == Some((f, |Encode(f, form, mask)|))
  {
    hide Open, Masked, Length;
    var head := Head(f.opcode, |f.payload|, form, mask.Some?);
    var b := Encode(f, form, mask) + rest;
    if mask.Some? {
      var m, body := mask.value, Masked(f.payload, mask.value);
      assert b == head + (m + body + rest);
      OpenHead(f.opcode, |f.payload|, form, true, m + body + rest);
      MaskedTwice(f.payload, m);
      assert b[|head|..|head| + 4] == m;
      assert b[|head| + 4..|head| + 4 + |body|] == body;
    } else {
      assert b == head + (f.payload + rest);
      OpenHead(f.opcode, |f.payload|, form, false, f.payload + rest);
      assert b[|head|..|head| + |f.payload|] == f.payload;
    }
  }

  /** What was read was a frame: no other bytes are accepted. */
  lemma OnlyFrames(b: seq<Byte>, masked: bool)
    requires Parse(b, masked).Some?
    ensures var (f, n) := Parse(b, masked).value;
            && 0 <= f.opcode < 16 && |f.payload| <= MAX_SIZE
            && exists form: Form, mask: Option<seq<Byte>> ::
                 Fits(|f.payload|, form) && IsMask(mask) && mask.Some? == masked && Encode(f, form, mask) == b[..n]
  {
    hide Masked, Length, Open;
    var (f, n) := Parse(b, masked).value;
    var o := Open(b, masked).value;
    OpenIsHead(b, masked);
    var head := Head(o.opcode, o.size, o.form, masked);
    if masked {
      var m, body := b[o.at..o.at + 4], b[o.at + 4..n];
      MaskedTwice(body, m);
      assert b[..n] == b[..o.at] + (m + body);
      assert Encode(f, o.form, Some(m)) == b[..n];
    } else {
      assert b[..n] == head + f.payload;
      assert Encode(f, o.form, None) == b[..n];
    }
  }

  lemma OpenIsHead(b: seq<Byte>, masked: bool)
    requires Open(b, masked).Some?
    ensures var o := Open(b, masked).value;
            b[..o.at] == Head(o.opcode, o.size, o.form, masked)
  {
    var o := Open(b, masked).value;
    assert b[..o.at] == [b[0], b[1]] + b[2..o.at];
    assert b[0] == 128 + o.opcode by {
      assert b[0] / 16 == 8;
    }
    BigEndianIsCanonical(b[2..o.at]);
    hide BigEndian, PutBigEndian, Pow256;
    match o.form
    case Seven =>
    case Sixteen => assert Length(o.size, Sixteen, if masked then 128 else 0) == [b[1]] + b[2..4];
    case SixtyFour => assert Length(o.size, SixtyFour, if masked then 128 else 0) == [b[1]] + b[2..10];
  }

  lemma OpenExtends(b: seq<Byte>, more: seq<Byte>, masked: bool)
    requires Open(b, masked).Some?
    ensures Open(b + more, masked) == Open(b, masked)
  {
    hide BigEndian;
    var o := Open(b, masked).value;
    assert (b + more)[2..o.at] == b[2..o.at];
  }

  lemma ParseExtends(b: seq<Byte>, more: seq<Byte>, masked: bool)
    requires Parse(b, masked).Some?
    ensures Parse(b + more, masked) == Parse(b, masked)
  {
    hide Open, Masked;
    OpenExtends(b, more, masked);
    var o := Open(b, masked).value;
    var start := if masked then o.at + 4 else o.at;
    assert (b + more)[start..start + o.size] == b[start..start + o.size];
    assert masked ==> (b + more)[o.at..start] == b[o.at..start];
  }

  /** Bytes that are all needed leave nothing shorter that parses. */
  lemma NoneShorter(b: seq<Byte>, masked: bool, n: nat)
    requires Parse(b, masked).Some? && Parse(b, masked).value.1 == |b| && n < |b|
    ensures Parse(b[..n], masked).None?
  {
    hide *;
    assert b[..n] + b[n..] == b;
    if Parse(b[..n], masked).Some? {
      ParseExtends(b[..n], b[n..], masked);
    }
  }

  /** A truncated frame always raises. */
  lemma TruncatedRaises(f: Frame, form: Form, mask: Option<seq<Byte>>, n: nat)
    requires 0 <= f.opcode < 16 && Fits(|f.payload|, form) && IsMask(mask) && |f.payload| <= MAX_SIZE
    requires n < |Encode(f, form, mask)|
    ensures Parse(Encode(f, form, mask)[..n], mask.Some?).None?
  {
    hide *;
    var b := Encode(f, form, mask);
    ReadsBack(f, form, mask, []);
    assert b + [] == b;
    NoneShorter(b, mask.Some?, n);
  }

  /** A longer frame raises, however it is written. */
  lemma OversizedRaises(f: Frame, form: Form, mask: Option<seq<Byte>>, rest: seq<Byte>)
    requires 0 <= f.opcode < 16 && Fits(|f.payload|, form) && IsMask(mask)
    requires MAX_SIZE < |f.payload| < (if form.SixtyFour? then Pow256(8) else Pow256(2))
    ensures Parse(Encode(f, form, mask) + rest, mask.Some?).None?
  {
    hide BigEndian, PutBigEndian, Pow256, Masked;
    var b := Encode(f, form, mask) + rest;
    match form
    case Seven =>
    case Sixteen =>
      BigEndianRoundTrip(|f.payload|, 2);
      assert b[2..4] == PutBigEndian(|f.payload|, 2);
    case SixtyFour =>
      BigEndianRoundTrip(|f.payload|, 8);
      assert b[2..10] == PutBigEndian(|f.payload|, 8);
  }

  // ---------------------------------------------------------------- sample frames

  /** The text message "Hello" of section 5.7, masked and unmasked. */
  lemma HelloReadsBack(rest: seq<Byte>)
    ensures Parse([0x81, 0x05, 0x48, 0x65, 0x6C, 0x6C, 0x6F] + rest, false) == Some((Frame(1, [0x48, 0x65, 0x6C, 0x6C, 0x6F]), 7))
    ensures Parse([0x81, 0x85, 0x37, 0xFA, 0x21, 0x3D, 0x7F, 0x9F, 0x4D, 0x51, 0x58] + rest, true)
         == Some((Frame(1, Masked([0x7F, 0x9F, 0x4D, 0x51, 0x58], [0x37, 0xFA, 0x21, 0x3D])), 11))
  {
    hide Masked, Xor, BigEndian;
    var hello: seq<Byte> := [0x48, 0x65, 0x6C, 0x6C, 0x6F];
    var plain: seq<Byte> := [0x81, 0x05, 0x48, 0x65, 0x6C, 0x6C, 0x6F] + rest;
    assert plain[2..7] == hello;
    var mask: seq<Byte>, body: seq<Byte> := [0x37, 0xFA, 0x21, 0x3D], [0x7F, 0x9F, 0x4D, 0x51, 0x58];
    var masked: seq<Byte> := [0x81, 0x85, 0x37, 0xFA, 0x21, 0x3D, 0x7F, 0x9F, 0x4D, 0x51, 0x58] + rest;
    assert masked[2..6] == mask && masked[6..11] == body;
  }

  // ---------------------------------------------------------------- the fixture's own frames

  /** `0x80 | opcode`, which must be a byte. */
  function Flagged(opcode: nat): nat { if opcode / 128 % 2 == 1 then opcode else opcode + 128 }

  function MakeFrame(opcode: nat, payload: seq<Byte>, mask: Option<seq<Byte>>): Option<seq<Byte>>
    requires IsMask(mask)
  {
    if |payload| > 125 || Flagged(opcode) > 255 then None
    else
      Some([Flagged(opcode), if mask.Some? then 128 + |payload| else |payload|] +
           (if mask.Some? then mask.value + Masked(payload, mask.value) else payload))
  }

  /** The fixture writes every payload of up to 125 bytes under every opcode that is a byte, as a final
      frame that says whether it is masked, and nothing else. */
  lemma FixtureWrites(opcode: nat, payload: seq<Byte>, mask: Option<seq<Byte>>)
    requires IsMask(mask)
    ensures MakeFrame(opcode, payload, mask).Some? <==> |payload| <= 125 && opcode <= 255
    ensures |payload| <= 125 && opcode <= 255 ==>
              var b := MakeFrame(opcode, payload, mask).value;
              && |b| == 2 + (if mask.Some? then 4 else 0) + |payload|
              && b[0] >= 128 && b[0] % 128 == opcode % 128 && (b[1] >= 128 <==> mask.Some?) && b[1] % 128 == |payload|
  {
    if opcode > 255 {
      assert Flagged(opcode) >= opcode;
    }
  }

  /** What the fixture writes it reads back, exactly when the opcode is one. */
  lemma FixtureFramesReadBack(opcode: nat, payload: seq<Byte>, mask: Option<seq<Byte>>, rest: seq<Byte>)
    requires IsMask(mask) && MakeFrame(opcode, payload, mask).Some?
    ensures var b := MakeFrame(opcode, payload, mask).value;
            Parse(b + rest, mask.Some?) == Some((Frame(opcode, payload), |b|)) <==> opcode < 16
  {
    var b := MakeFrame(opcode, payload, mask).value;
    if opcode < 16 {
      assert b == Encode(Frame(opcode, payload), Seven, mask);
      ReadsBack(Frame(opcode, payload), Seven, mask, rest);
    }
  }

  // ---------------------------------------------------------------- the stream

  class Stream {
    var unread: seq<Byte>

    constructor (content: seq<Byte>)
      ensures unread == content
    {
      unread := content;
    }

    /** Some of what was asked for; nothing only at the end. */
    method Read(count: nat) returns (chunk: seq<Byte>)
      modifies this
      ensures |chunk| <= count && old(unread) == chunk + unread
      ensures chunk == [] ==> count == 0 || old(unread) == []
    {
      var n :| 0 <= n <= count && n <= |unread| && (n == 0 ==> count == 0 || unread == []) by {
        var most := if count <= |unread| then count else |unread|;
        assert most == 0 ==> count == 0 || unread == [];
      }
      chunk, unread := unread[..n], unread[n..];
    }
  }

  method ReadExact(stream: Stream, count: nat) returns (r: Option<seq<Byte>>)
    modifies stream
    ensures |old(stream.unread)| >= count ==>
              r == Some(old(stream.unread)[..count]) && stream.unread == old(stream.unread)[count..]
    ensures |old(stream.unread)| < count ==> r == None
  {
    var data := [];
    while |data| < count
      invariant |data| <= count && data + stream.unread == old(stream.unread)
      decreases count - |data|
    {
      var chunk := stream.Read(count - |data|);
      if chunk == [] {
        assert data == old(stream.unread);
        return None;
      }
      data := data + chunk;
    }
    r := Some(data);
  }

  /** The frame up to its length. */
  method ReadOpening(stream: Stream, masked: bool) returns (r: Option<Opening>)
    modifies stream
    ensures r == Open(old(stream.unread), masked)
    ensures r.Some? ==> stream.unread == old(stream.unread)[r.value.at..]
  {
    hide BigEndian;
    ghost var b := stream.unread;
    var head := ReadExact(stream, 2);
    if head.None? { return None; }
    var first, second := head.value[0], head.value[1];
    if first < 128 || first / 16 % 8 != 0 || (second >= 128) != masked { return None; }
    var size: nat, at, form := second % 128, 2, Seven;
    if size == 126 {
      var extended := ReadExact(stream, 2);
      if extended.None? { return None; }
      assert extended.value == b[2..4];
      size, at, form := BigEndian(extended.value), 4, Sixteen;
    } else if size == 127 {
      var extended := ReadExact(stream, 8);
      if extended.None? { return None; }
      assert extended.value == b[2..10];
      size, at, form := BigEndian(extended.value), 10, SixtyFour;
    }
    assert stream.unread == b[at..];
    if size > MAX_SIZE { return None; }
    r := Some(Opening(first % 16, size, at, form));
  }

  /** However the stream splits its reads, the frame at its front, and exactly its bytes. */
  method ReadFrame(stream: Stream, masked: bool) returns (r: Option<Frame>)
    modifies stream
    ensures match Parse(old(stream.unread), masked)
            case None => r == None
            case Some((f, n)) => r == Some(f) && stream.unread == old(stream.unread)[n..]
  {
    hide Open, Masked;
    ghost var b := stream.unread;
    var opening := ReadOpening(stream, masked);
    if opening.None? { return None; }
    var Opening(opcode, size, at, _) := opening.value;
    var mask := [];
    if masked {
      var key := ReadExact(stream, 4);
      if key.None? { return None; }
      mask := key.value;
      assert mask == b[at..at + 4] && stream.unread == b[at + 4..];
    }
    var payload := ReadExact(stream, size);
    if payload.None? { return None; }
    if masked {
      assert payload.value == b[at + 4..at + 4 + size];
      payload := Some(Masked(payload.value, mask));
    } else {
      assert payload.value == b[at..at + size];
    }
    r := Some(Frame(opcode, payload.value));
  }
}
