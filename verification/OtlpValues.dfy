/** AnyValue, KeyValue, array and kvlist messages of OTLP, decoded to Python values.

    `None` stands for a raised exception: a malformed message, a value of the wrong wire type, text
    that is not UTF-8, an int that is too wide for a double, or a KeyValue without its key. */
module OtlpValues {
  import opened Arithmetic
  import opened ByteStrings
  import opened Protobuf
  import opened Utf8
  import opened Wrappers

  const TWO63 := 0x8000_0000_0000_0000

  datatype Py =
    | Null
    | Str(s: Text)
    | Bool(b: bool)
    | Int(i: int)
    | Float(bits: nat)  // the float64 with these bits
    | List(items: seq<Py>)
    | Dict(dict: seq<Item>)

  /** A dict as Python keeps it: in the order in which the keys were first inserted. */
  datatype Item = Item(key: Text, value: Py)

  function Put(d: seq<Item>, key: Text, value: Py): seq<Item> {
    if d == [] then [Item(key, value)]
    else if d[0].key == key then [Item(key, value)] + d[1..]
    else [d[0]] + Put(d[1..], key, value)
  }

  function HexDigit(d: int): Scalar
    requires 0 <= d < 16
  {
    if d < 10 then '0' as int + d else 'a' as int + d - 10
  }

  function Hex(b: seq<Byte>): Text {
    if b == [] then [] else [HexDigit(b[0] / 16), HexDigit(b[0] % 16)] + Hex(b[1..])
  }

  /** Hex digits lose nothing. */
  lemma {:induction false} HexIsInjective(a: seq<Byte>, b: seq<Byte>)
    requires Hex(a) == Hex(b)
    ensures a == b
  {
    if a == [] || b == [] {
    } else {
      assert Hex(a)[0] == HexDigit(a[0] / 16) && Hex(b)[0] == HexDigit(b[0] / 16);
      assert Hex(a)[1] == HexDigit(a[0] % 16) && Hex(b)[1] == HexDigit(b[0] % 16);
      assert Hex(a)[2..] == Hex(a[1..]) && Hex(b)[2..] == Hex(b[1..]);
      HexIsInjective(a[1..], b[1..]);
      assert a == [a[0]] + a[1..] && b == [b[0]] + b[1..];
    }
  }

  const DIGITS := "0123456789abcdef"

  /** Two lower-case digits for each byte, the high one first. */
  lemma {:induction false} HexDigits(b: seq<Byte>, i: nat)
    requires i < |b|
    ensures |Hex(b)| == 2 * |b|
    ensures Hex(b)[2 * i] == DIGITS[b[i] / 16] as int && Hex(b)[2 * i + 1] == DIGITS[b[i] % 16] as int
  {
    if i == 0 {
      Digit(b[0] / 16);
      Digit(b[0] % 16);
      if |b| > 1 { HexDigits(b[1..], 0); }
    } else {
      HexDigits(b[1..], i - 1);
    }
  }

  lemma Digit(d: nat)
    requires d < 16
    ensures HexDigit(d) == DIGITS[d] as int
  {
  }

  // ---------------------------------------------------------------- decoding

  /** Just above the longest byte string among some fields. */
  function Weight(fs: seq<Field>): (n: nat)
    ensures forall f | f in fs && f.v.Bytes? :: |f.v.bytes| < n
  {
    if fs == [] then 0
    else
      var last := fs[|fs| - 1];
      assert fs == fs[..|fs| - 1] + [last];
      Max(Weight(fs[..|fs| - 1]), if last.v.Bytes? then |last.v.bytes| + 1 else 0)
  }

  lemma {:induction false} WeightBound(fs: seq<Field>, n: nat)
    requires forall f | f in fs && f.v.Bytes? :: |f.v.bytes| < n
    ensures Weight(fs) <= n
  {
    if fs == [] {
    } else {
      WeightBound(fs[..|fs| - 1], n);
    }
  }

  /** `dict(fields)[key]`: the last field with that key. */
  function Last(fs: seq<Field>, key: nat): (r: Option<Value>)
    ensures r.Some? ==> Field(key, r.value) in fs
    ensures r.None? ==> forall f | f in fs :: f.key != key
  {
    if fs == [] then None
    else if fs[|fs| - 1].key == key then Some(fs[|fs| - 1].v)
    else
      assert fs == fs[..|fs| - 1] + [fs[|fs| - 1]];
      Last(fs[..|fs| - 1], key)
  }

  function Signed(n: nat): int { if n >= TWO63 then n - TWO64 else n }

  /** Only the first field of an AnyValue is looked at. */
  function AnyValue(b: seq<Byte>): Option<Py>
    decreases |b|, 0
  {
    match Fields(b)
    case None => None
    case Some(fs) =>
      if fs == [] then Some(Null)
      else
        var f := fs[0];
        match f.v
        case Num(n) =>
          if f.key == 2 then Some(Bool(n != 0))
          else if f.key == 3 then Some(Int(Signed(n)))
          else if f.key == 4 && n < TWO64 then Some(Float(n))
          else None
        case Bytes(s) =>
          if f.key == 1 then
            match Decode(s)
            case None => None
            case Some(text) => Some(Str(text))
          else if f.key == 2 then Some(Bool(s != []))
          else if f.key == 3 || f.key == 4 then None
          else if f.key == 5 then
            match Fields(s)
            case None => None
            case Some(gs) =>
              WeightBound(gs, |s|);
              match Elements(gs)
              case None => None
              case Some(items) => Some(List(items))
          else if f.key == 6 then
            match Fields(s)
            case None => None
            case Some(gs) =>
              WeightBound(gs, |s|);
              match KeyValues(gs, 1)
              case None => None
              case Some(d) => Some(Dict(d))
          else Some(Str(Hex(s)))
  }

  /** The values of an array, up to the last of some fields. */
  function Elements(fs: seq<Field>): Option<seq<Py>>
    decreases Weight(fs), |fs|
  {
    if fs == [] then Some([])
    else
      var f := fs[|fs| - 1];
      match Elements(fs[..|fs| - 1])
      case None => None
      case Some(items) =>
        if f.key != 1 then Some(items)
        else if f.v.Num? then None
        else
          match AnyValue(f.v.bytes)
          case None => None
          case Some(item) => Some(items + [item])
  }

  function KeyValue(s: seq<Byte>): Option<Item>
    decreases |s|, 0
  {
    match Fields(s)
    case None => None
    case Some(fs) =>
      var value := match Last(fs, 2)
        case None => Some(Null)
        case Some(Num(_)) => None
        case Some(Bytes(v)) => AnyValue(v);
      match Last(fs, 1)
      case None => None
      case Some(Num(_)) => None
      case Some(Bytes(k)) =>
        match Decode(k)
        case None => None
        case Some(key) => if value.Some? then Some(Item(key, value.value)) else None
  }

  function KeyValues(fs: seq<Field>, number: nat): Option<seq<Item>>
    decreases Weight(fs), |fs|
  {
    if fs == [] then Some([])
    else
      var f := fs[|fs| - 1];
      match KeyValues(fs[..|fs| - 1], number)
      case None => None
      case Some(d) =>
        if f.key != number then Some(d)
        else if f.v.Num? then None
        else
          match KeyValue(f.v.bytes)
          case None => None
          case Some(item) => Some(Put(d, item.key, item.value))
  }

  // ---------------------------------------------------------------- what a serializer emits

  type Int64 = i: int | -TWO63 <= i < TWO63
  type Bits64 = n: nat | n < TWO64

  datatype Any =
    | NotSet
    | StringValue(s: Text)
    | BoolValue(b: bool)
    | IntValue(i: Int64)
    | DoubleValue(bits: Bits64)
    | ArrayValue(items: seq<Any>)
    | KvListValue(entries: seq<Entry>)
    | BytesValue(bytes: seq<Byte>)
  datatype Entry = Entry(key: Text, value: Any)

  /** A oneof writes the member that is set, even when it has its default value. */
  function AnyWires(a: Any): (ws: seq<Wire>)
    ensures |ws| <= 1 && forall w | w in ws :: WellFormed(w)
  {
    match a
    case NotSet => []
    case StringValue(s) => [Lengthy(1, Encode(s))]
    case BoolValue(b) => [Plain(2, if b then 1 else 0)]
    case IntValue(i) => [Plain(3, if i < 0 then i + TWO64 else i)]
    case DoubleValue(bits) => [Fixed64(4, bits)]
    case ArrayValue(items) => [Lengthy(5, Message(ItemWires(items)))]
    case KvListValue(entries) => [Lengthy(6, Message(EntryWires(entries, 1)))]
    case BytesValue(b) => [Lengthy(7, b)]
  }

  function ItemWires(items: seq<Any>): (ws: seq<Wire>)
    ensures forall w | w in ws :: WellFormed(w)
  {
    if items == [] then []
    else ItemWires(items[..|items| - 1]) + [Lengthy(1, Message(AnyWires(items[|items| - 1])))]
  }

  function EntryWires(entries: seq<Entry>, number: nat): (ws: seq<Wire>)
    ensures forall w | w in ws :: WellFormed(w)
  {
    if entries == [] then []
    else EntryWires(entries[..|entries| - 1], number) + [Lengthy(number, Message(PairWires(entries[|entries| - 1])))]
  }

  /** A scalar field with its default value, here an empty key, is left out. */
  function PairWires(e: Entry): (ws: seq<Wire>)
    ensures forall w | w in ws :: WellFormed(w)
  {
    (if e.key == [] then [] else [Lengthy(1, Encode(e.key))]) + [Lengthy(2, Message(AnyWires(e.value)))]
  }

  // ---------------------------------------------------------------- what a tree means

  /** No key anywhere in the tree is empty. */
  predicate Named(a: Any) {
    match a
    case ArrayValue(items) => forall i | 0 <= i < |items| :: Named(items[i])
    case KvListValue(entries) => forall i | 0 <= i < |entries| :: entries[i].key != [] && Named(entries[i].value)
    case _ => true
  }

  predicate AllNamed(items: seq<Any>) { forall i | 0 <= i < |items| :: Named(items[i]) }
  predicate EntriesNamed(entries: seq<Entry>) { forall i | 0 <= i < |entries| :: entries[i].key != [] && Named(entries[i].value) }

  /** The Python value of a tree: bytes as hex, and of equal keys in a kvlist the last. */
  function Shown(a: Any): Py {
    match a
    case NotSet => Null
    case StringValue(s) => Str(s)
    case BoolValue(b) => Bool(b)
    case IntValue(i) => Int(i)
    case DoubleValue(bits) => Float(bits)
    case ArrayValue(items) => List(ShownItems(items))
    case KvListValue(entries) => Dict(ShownEntries(entries))
    case BytesValue(b) => Str(Hex(b))
  }

  function ShownItems(items: seq<Any>): (r: seq<Py>)
    ensures |r| == |items| && forall i | 0 <= i < |items| :: r[i] == Shown(items[i])
  {
    if items == [] then []
    else ShownItems(items[..|items| - 1]) + [Shown(items[|items| - 1])]
  }

  function ShownEntries(entries: seq<Entry>): seq<Item> {
    if entries == [] then []
    else
      var last := entries[|entries| - 1];
      Put(ShownEntries(entries[..|entries| - 1]), last.key, Shown(last.value))
  }

  predicate DistinctKeys(entries: seq<Entry>) {
    forall i, j | 0 <= i < j < |entries| :: entries[i].key != entries[j].key
  }

  lemma {:induction false} PutNew(d: seq<Item>, key: Text, value: Py)
    requires forall i | 0 <= i < |d| :: d[i].key != key
    ensures Put(d, key, value) == d + [Item(key, value)]
  {
    if d == [] {
    } else {
      PutNew(d[1..], key, value);
    }
  }

  /** What a dict holds for a key. */
  function Held(d: seq<Item>, key: Text): Option<Py> {
    if d == [] then None
    else if d[0].key == key then Some(d[0].value)
    else Held(d[1..], key)
  }

  /** The value of the last of the entries with a key. */
  function LastOf(entries: seq<Entry>, key: Text): Option<Py> {
    if entries == [] then None
    else
      var last := entries[|entries| - 1];
      if last.key == key then Some(Shown(last.value)) else LastOf(entries[..|entries| - 1], key)
  }

  predicate UniqueKeys(d: seq<Item>) {
    forall i, j | 0 <= i < j < |d| :: d[i].key != d[j].key
  }

  lemma {:induction false} PutHeld(d: seq<Item>, key: Text, value: Py, other: Text)
    requires UniqueKeys(d)
    ensures Held(Put(d, key, value), other) == if other == key then Some(value) else Held(d, other)
    ensures UniqueKeys(Put(d, key, value))
    ensures forall i | 0 <= i < |Put(d, key, value)| :: Put(d, key, value)[i].key == key || exists j | 0 <= j < |d| :: d[j].key == Put(d, key, value)[i].key
  {
    if d == [] {
    } else {
      PutHeld(d[1..], key, value, other);
      var more := Put(d[1..], key, value);
      if d[0].key != key {
        assert Put(d, key, value) == [d[0]] + more;
        assert Put(d, key, value)[1..] == more;
        forall i | 0 <= i < |more| ensures more[i].key != d[0].key {
        }
      }
    }
  }

  /** The dict holds each key once, with the value of the last entry that has it. */
  lemma {:induction false} LastEntryWins(entries: seq<Entry>, key: Text)
    ensures Held(ShownEntries(entries), key) == LastOf(entries, key) && UniqueKeys(ShownEntries(entries))
  {
    hide Put, Held, Shown;
    if entries == [] {
      NothingHeld(key);
    } else {
      var init, last := entries[..|entries| - 1], entries[|entries| - 1];
      LastEntryWins(init, key);
      PutHeld(ShownEntries(init), last.key, Shown(last.value), key);
    }
  }

  lemma NothingHeld(key: Text)
    ensures Held([], key).None?
  {
  }

  /** With distinct keys every entry is kept, in order. */
  lemma {:induction false} DistinctEntriesAreKept(entries: seq<Entry>)
    requires DistinctKeys(entries)
    ensures |ShownEntries(entries)| == |entries|
    ensures forall i | 0 <= i < |entries| :: ShownEntries(entries)[i] == Item(entries[i].key, Shown(entries[i].value))
  {
    if entries == [] {
    } else {
      var init, last := entries[..|entries| - 1], entries[|entries| - 1];
      DistinctEntriesAreKept(init);
      PutNew(ShownEntries(init), last.key, Shown(last.value));
    }
  }

  // ---------------------------------------------------------------- decoding inverts encoding

  lemma ReadAllAppend(ws: seq<Wire>, more: seq<Wire>)
    ensures ReadAll(ws + more) == ReadAll(ws) + ReadAll(more)
  {
  }

  lemma ReadOne(ws: seq<Wire>, w: Wire)
    ensures ReadAll(ws + [w]) == ReadAll(ws) + [Read(w)]
  {
  }

  /** For every tree: decoding gives back what it means, unless some key is empty, and then it raises. */
  lemma {:induction false} AnyRoundTrip(a: Any)
    ensures AnyValue(Message(AnyWires(a))) == if Named(a) then Some(Shown(a)) else None
    decreases a
  {
    hide Fields, Message, WellFormed, Elements, KeyValues;
    var ws := AnyWires(a);
    FieldsRoundTrip(ws);
    match a
    case StringValue(s) => RoundTrip(s);
    case ArrayValue(items) =>
      FieldsRoundTrip(ItemWires(items));
      ItemsRoundTrip(items);
    case KvListValue(entries) =>
      FieldsRoundTrip(EntryWires(entries, 1));
      EntriesRoundTrip([], entries, 1);
      assert [] + ReadAll(EntryWires(entries, 1)) == ReadAll(EntryWires(entries, 1));
    case _ =>
  }

  lemma {:induction false} ItemsRoundTrip(items: seq<Any>)
    ensures Elements(ReadAll(ItemWires(items))) == if AllNamed(items) then Some(ShownItems(items)) else None
    decreases items
  {
    hide AnyValue, Message, AnyWires, Named, Shown;
    if items == [] {
    } else {
      var init, last := items[..|items| - 1], items[|items| - 1];
      ItemsRoundTrip(init);
      AnyRoundTrip(last);
      ReadOne(ItemWires(init), Lengthy(1, Message(AnyWires(last))));
      assert items == init + [last];
    }
  }

  lemma PairRoundTrip(e: Entry)
    ensures KeyValue(Message(PairWires(e))) ==
              if e.key != [] && Named(e.value) then Some(Item(e.key, Shown(e.value))) else None
    decreases e
  {
    hide AnyValue, Message, AnyWires, Named, Shown, Fields, WellFormed, Encode, Decode;
    FieldsRoundTrip(PairWires(e));
    AnyRoundTrip(e.value);
    RoundTrip(e.key);
    var value := Read(Lengthy(2, Message(AnyWires(e.value))));
    if e.key == [] {
      assert ReadAll(PairWires(e)) == [value];
    } else {
      assert ReadAll(PairWires(e)) == [Read(Lengthy(1, Encode(e.key))), value];
    }
  }

  /** The entries of a map, after fields of other kinds. */
  lemma {:induction false} EntriesRoundTrip(before: seq<Field>, entries: seq<Entry>, number: nat)
    requires forall f | f in before :: f.key != number
    ensures KeyValues(before + ReadAll(EntryWires(entries, number)), number) ==
              if EntriesNamed(entries) then Some(ShownEntries(entries)) else None
    decreases entries
  {
    hide KeyValue, KeyValues, Message, PairWires, Named, Shown, Put, Elements, Fields, AnyValue;
    if entries == [] {
      assert before + ReadAll(EntryWires(entries, number)) == before;
      OthersIgnored([], before, number);
      NoEntries(number);
      assert [] + before == before;
    } else {
      var init, last := entries[..|entries| - 1], entries[|entries| - 1];
      EntriesRoundTrip(before, init, number);
      PairRoundTrip(last);
      var w := Lengthy(number, Message(PairWires(last)));
      ReadOne(EntryWires(init, number), w);
      var fs := before + ReadAll(EntryWires(init, number));
      assert before + ReadAll(EntryWires(entries, number)) == fs + [Read(w)];
      KeyValuesNext(fs, Read(w), number);
      assert entries == init + [last];
    }
  }

  lemma NoEntries(number: nat)
    ensures KeyValues([], number) == Some([])
  {
  }

  lemma KeyValuesNext(fs: seq<Field>, f: Field, number: nat)
    requires f.key == number && f.v.Bytes?
    ensures KeyValues(fs + [f], number) ==
              match KeyValues(fs, number)
              case None => None
              case Some(d) =>
                match KeyValue(f.v.bytes)
                case None => None
                case Some(item) => Some(Put(d, item.key, item.value))
  {
    hide KeyValue, Put;
    assert (fs + [f])[..|fs|] == fs;
  }

  lemma {:induction false} OthersIgnored(fs: seq<Field>, others: seq<Field>, number: nat)
    requires forall f | f in others :: f.key != number
    ensures KeyValues(fs + others, number) == KeyValues(fs, number)
  {
    if others == [] {
      assert fs + others == fs;
    } else {
      var init := others[..|others| - 1];
      OthersIgnored(fs, init, number);
      assert (fs + others)[..|fs + others| - 1] == fs + init;
    }
  }

  /** A KeyValue with an empty key is legal on the wire, and makes the decoder raise. */
  lemma EmptyKeyRaises()
    ensures AnyValue(Message(AnyWires(KvListValue([Entry([], BoolValue(true))])))).None?
  {
    var entries := [Entry([], BoolValue(true))];
    AnyRoundTrip(KvListValue(entries));
    assert entries[0].key == [];
  }

  // ---------------------------------------------------------------- the loops

  lemma NextField(fs: seq<Field>, i: nat)
    requires i < |fs|
    ensures fs[..i + 1][..i] == fs[..i] && fs[..i + 1][i] == fs[i]
  {
  }

  /** Once an entry has failed, all has: the exception leaves the loop. */
  lemma {:induction false} FailureStays(fs: seq<Field>, i: nat, number: nat)
    requires i <= |fs|
    ensures KeyValues(fs[..i], number).None? ==> KeyValues(fs, number).None?
    ensures Elements(fs[..i]).None? ==> Elements(fs).None?
    decreases |fs| - i
  {
    if i == |fs| {
      assert fs[..i] == fs;
    } else {
      NextField(fs, i);
      FailureStays(fs, i + 1, number);
    }
  }

  method ReadKeyValues(b: seq<Byte>, number: nat) returns (r: Option<seq<Item>>)
    ensures r == match Fields(b) case None => None case Some(fs) => KeyValues(fs, number)
    decreases |b|, 1
  {
    hide Fields, AnyValue, Put, Decode, Last, Elements;
    var parsed := ReadFields(b);
    if parsed.None? { return None; }
    var fs, out := parsed.value, [];
    for i := 0 to |fs|
      invariant KeyValues(fs[..i], number) == Some(out)
    {
      NextField(fs, i);
      FailureStays(fs, i + 1, number);
      var f := fs[i];
      if f.key == number {
        if f.v.Num? { return None; }
        var item := ReadPair(f.v.bytes);
        if item.None? { return None; }
        out := Put(out, item.value.key, item.value.value);
      }
    }
    assert fs[..|fs|] == fs;
    r := Some(out);
  }

  method ReadPair(b: seq<Byte>) returns (r: Option<Item>)
    ensures r == KeyValue(b)
    decreases |b|, 0
  {
    hide Fields, AnyValue, Decode;
    var parsed := ReadFields(b);
    if parsed.None? { return None; }
    var fs := parsed.value;
    var value := Some(Null);
    match Last(fs, 2) {
      case None =>
      case Some(Num(_)) => return None;
      case Some(Bytes(v)) => value := ReadAny(v);
    }
    if value.None? || Last(fs, 1).None? || Last(fs, 1).value.Num? { return None; }
    var key := Decode(Last(fs, 1).value.bytes);
    if key.None? { return None; }
    r := Some(Item(key.value, value.value));
  }

  /** The loop returns in its first round. */
  method ReadAny(b: seq<Byte>) returns (r: Option<Py>)
    ensures r == AnyValue(b)
    decreases |b|, 0
  {
    hide Fields, Decode, Elements, KeyValues, Hex;
    var parsed := ReadFields(b);
    if parsed.None? { return None; }
    var fs := parsed.value;
    for i := 0 to |fs|
      invariant i == 0
    {
      var key, v := fs[i].key, fs[i].v;
      if key == 1 {
        if v.Num? { return None; }
        var text := Decode(v.bytes);
        return if text.Some? then Some(Str(text.value)) else None;
      }
      if key == 2 { return Some(Bool(if v.Num? then v.n != 0 else v.bytes != [])); }
      if key == 3 { return if v.Num? then Some(Int(if v.n >= TWO63 then v.n - TWO64 else v.n)) else None; }
      if key == 4 { return if v.Num? && v.n < TWO64 then Some(Float(v.n)) else None; }
      if key == 5 {
        if v.Num? { return None; }
        var items := ReadElements(v.bytes);
        return if items.Some? then Some(List(items.value)) else None;
      }
      if key == 6 {
        if v.Num? { return None; }
        var d := ReadKeyValues(v.bytes, 1);
        return if d.Some? then Some(Dict(d.value)) else None;
      }
      return if v.Bytes? then Some(Str(Hex(v.bytes))) else None;
    }
    r := Some(Null);
  }

  method ReadElements(b: seq<Byte>) returns (r: Option<seq<Py>>)
    ensures r == match Fields(b) case None => None case Some(fs) => Elements(fs)
    decreases |b|, 1
  {
    hide Fields, AnyValue, KeyValues;
    var parsed := ReadFields(b);
    if parsed.None? { return None; }
    var fs, items := parsed.value, [];
    for i := 0 to |fs|
      invariant Elements(fs[..i]) == Some(items)
    {
      NextField(fs, i);
      FailureStays(fs, i + 1, 1);
      if fs[i].key == 1 {
        if fs[i].v.Num? { return None; }
        var item := ReadAny(fs[i].v.bytes);
        if item.None? { return None; }
        items := items + [item.value];
      }
    }
    assert fs[..|fs|] == fs;
    r := Some(items);
  }
}
