/** Whole OTLP log requests: resources, their scopes, and the rows made of their records. */
module Otlp {
  import opened ByteStrings
  import opened OtlpValues
  import opened Protobuf
  import opened Utf8
  import opened Wrappers

  /** One decoded record; `None` for a key the row does not have. */
  datatype Row = Row(resource: seq<Item>, attributes: seq<Item>, timestamp: Option<Value>,
                     severityNumber: Option<Value>, severityText: Option<Text>, body: Option<Py>)

  // ---------------------------------------------------------------- decoding

  /** What one field of a record adds to its row. */
  function SetField(row: Row, f: Field): Option<Row> {
    if f.key == 1 then Some(row.(timestamp := Some(f.v)))
    else if f.key == 2 then Some(row.(severityNumber := Some(f.v)))
    else if f.key == 3 then
      if f.v.Num? then None
      else
        match Decode(f.v.bytes)
        case None => None
        case Some(text) => Some(row.(severityText := Some(text)))
    else if f.key == 5 then
      if f.v.Num? then None
      else
        match AnyValue(f.v.bytes)
        case None => None
        case Some(value) => Some(row.(body := Some(value)))
    else Some(row)
  }

  function SetFields(row: Row, fs: seq<Field>): Option<Row> {
    if fs == [] then Some(row)
    else
      match SetFields(row, fs[..|fs| - 1])
      case None => None
      case Some(r) => SetField(r, fs[|fs| - 1])
  }

  function RecordRow(resource: seq<Item>, s: seq<Byte>): Option<Row> {
    match Fields(s)
    case None => None
    case Some(fs) =>
      match KeyValues(fs, 6)
      case None => None
      case Some(attributes) => SetFields(Row(resource, attributes, None, None, None, None), fs)
  }

  /** The rows of the fields with one number, each a message read by `read`, in order. */
  function Collect(fs: seq<Field>, number: nat, read: seq<Byte> -> Option<seq<Row>>): Option<seq<Row>> {
    if fs == [] then Some([])
    else
      var f := fs[|fs| - 1];
      match Collect(fs[..|fs| - 1], number, read)
      case None => None
      case Some(rows) =>
        if f.key != number then Some(rows)
        else if f.v.Num? then None
        else
          match read(f.v.bytes)
          case None => None
          case Some(more) => Some(rows + more)
  }

  function RecordReader(resource: seq<Item>): seq<Byte> -> Option<seq<Row>> {
    s => match RecordRow(resource, s) case None => None case Some(row) => Some([row])
  }

  function ScopeReader(resource: seq<Item>): seq<Byte> -> Option<seq<Row>> {
    s => match Fields(s) case None => None case Some(fs) => Collect(fs, 2, RecordReader(resource))
  }

  /** The attributes of the first resource, or none. */
  function ResourceOf(parts: seq<Field>): Option<seq<Item>> {
    if parts == [] then Some([])
    else if parts[0].key != 1 then ResourceOf(parts[1..])
    else if parts[0].v.Num? then None
    else
      match Fields(parts[0].v.bytes)
      case None => None
      case Some(fs) => KeyValues(fs, 1)
  }

  function ResourceLogsReader(): seq<Byte> -> Option<seq<Row>> {
    s =>
      match Fields(s)
      case None => None
      case Some(parts) =>
        match ResourceOf(parts)
        case None => None
        case Some(resource) => Collect(parts, 2, ScopeReader(resource))
  }

  function Rows(b: seq<Byte>): Option<seq<Row>> {
    match Fields(b)
    case None => None
    case Some(fs) => Collect(fs, 1, ResourceLogsReader())
  }

  // ---------------------------------------------------------------- requests

  /** Fields the decoder does not read go into `rest`: trace ids, flags, schema URLs and the like. */
  datatype LogRecord = LogRecord(time: Bits64, severity: nat, text: Text, body: Option<Any>,
                                 attributes: seq<Entry>, rest: seq<Wire>)
  datatype ScopeLogs = ScopeLogs(scope: seq<Wire>, records: seq<LogRecord>, rest: seq<Wire>)
  datatype Resource = Resource(attributes: seq<Entry>, rest: seq<Wire>)
  datatype ResourceLogs = ResourceLogs(resource: Option<Resource>, scopes: seq<ScopeLogs>, rest: seq<Wire>)

  predicate Unread(ws: seq<Wire>, keys: set<nat>) {
    forall w | w in ws :: WellFormed(w) && Read(w).key !in keys
  }

  predicate Proper(r: LogRecord) { Unread(r.rest, {1, 2, 3, 5, 6}) }
  predicate ProperScope(s: ScopeLogs) {
    Unread(s.scope, {2}) && Unread(s.rest, {2}) && forall i | 0 <= i < |s.records| :: Proper(s.records[i])
  }
  predicate ProperResource(r: Resource) { Unread(r.rest, {1}) }
  predicate ProperLogs(r: ResourceLogs) {
    && Unread(r.rest, {1, 2}) && (r.resource.Some? ==> ProperResource(r.resource.value))
    && forall i | 0 <= i < |r.scopes| :: ProperScope(r.scopes[i])
  }

  /** The scalar fields and the body; defaults are left out. */
  function Head(r: LogRecord): (ws: seq<Wire>)
    ensures forall w | w in ws :: WellFormed(w) && Read(w).key != 6
  {
    (if r.time == 0 then [] else [Fixed64(1, r.time)]) +
    (if r.severity == 0 then [] else [Plain(2, r.severity)]) +
    (if r.text == [] then [] else [Lengthy(3, Encode(r.text))]) +
    (if r.body.None? then [] else [Lengthy(5, Message(AnyWires(r.body.value)))])
  }

  function RecordWires(r: LogRecord): seq<Wire> { Head(r) + EntryWires(r.attributes, 6) + r.rest }
  function ScopeWires(s: ScopeLogs): seq<Wire> { s.scope + Nested(2, RecordBodies(s.records)) + s.rest }
  function ResourceWires(r: Resource): seq<Wire> { EntryWires(r.attributes, 1) + r.rest }
  function LogsWires(r: ResourceLogs): seq<Wire> {
    (if r.resource.None? then [] else [Lengthy(1, Message(ResourceWires(r.resource.value)))]) +
    Nested(2, ScopeBodies(r.scopes)) + r.rest
  }
  function RequestWires(request: seq<ResourceLogs>): seq<Wire> { Nested(1, LogsBodies(request)) }

  function Nested(number: nat, bodies: seq<seq<Byte>>): (ws: seq<Wire>)
    ensures forall w | w in ws :: WellFormed(w) && Read(w).key == number
  {
    if bodies == [] then []
    else Nested(number, bodies[..|bodies| - 1]) + [Lengthy(number, bodies[|bodies| - 1])]
  }

  function RecordBodies(records: seq<LogRecord>): seq<seq<Byte>> {
    if records == [] then []
    else RecordBodies(records[..|records| - 1]) + [Message(RecordWires(records[|records| - 1]))]
  }
  function ScopeBodies(scopes: seq<ScopeLogs>): seq<seq<Byte>> {
    if scopes == [] then []
    else ScopeBodies(scopes[..|scopes| - 1]) + [Message(ScopeWires(scopes[|scopes| - 1]))]
  }
  function LogsBodies(request: seq<ResourceLogs>): seq<seq<Byte>> {
    if request == [] then []
    else LogsBodies(request[..|request| - 1]) + [Message(LogsWires(request[|request| - 1]))]
  }

  // ---------------------------------------------------------------- what a request means

  predicate RecordNamed(r: LogRecord) { EntriesNamed(r.attributes) && (r.body.Some? ==> Named(r.body.value)) }
  predicate ScopeNamed(s: ScopeLogs) { forall i | 0 <= i < |s.records| :: RecordNamed(s.records[i]) }
  predicate LogsNamed(r: ResourceLogs) {
    && (r.resource.Some? ==> EntriesNamed(r.resource.value.attributes))
    && forall i | 0 <= i < |r.scopes| :: ScopeNamed(r.scopes[i])
  }

  function ShownRecord(resource: seq<Item>, r: LogRecord): Row {
    Row(resource, ShownEntries(r.attributes),
        if r.time == 0 then None else Some(Num(r.time)),
        if r.severity == 0 then None else Some(Num(r.severity)),
        if r.text == [] then None else Some(r.text),
        if r.body.None? then None else Some(Shown(r.body.value)))
  }
  function ShownRecords(resource: seq<Item>, records: seq<LogRecord>): seq<Row> {
    if records == [] then []
    else ShownRecords(resource, records[..|records| - 1]) + [ShownRecord(resource, records[|records| - 1])]
  }
  function ShownScopes(resource: seq<Item>, scopes: seq<ScopeLogs>): seq<Row> {
    if scopes == [] then []
    else ShownScopes(resource, scopes[..|scopes| - 1]) + ShownRecords(resource, scopes[|scopes| - 1].records)
  }
  function ShownResource(resource: Option<Resource>): seq<Item> {
    if resource.None? then [] else ShownEntries(resource.value.attributes)
  }
  function ShownLogs(request: seq<ResourceLogs>): seq<Row> {
    if request == [] then []
    else
      var last := request[|request| - 1];
      ShownLogs(request[..|request| - 1]) + ShownScopes(ShownResource(last.resource), last.scopes)
  }

  // ---------------------------------------------------------------- records

  lemma {:induction false} SetFieldsAppend(row: Row, fs: seq<Field>, more: seq<Field>)
    ensures SetFields(row, fs + more) == match SetFields(row, fs) case None => None case Some(r) => SetFields(r, more)
  {
    hide SetField;
    if more == [] {
      assert fs + more == fs;
    } else {
      SetFieldsAppend(row, fs, more[..|more| - 1]);
      assert (fs + more)[..|fs + more| - 1] == fs + more[..|more| - 1];
    }
  }

  lemma {:induction false} SetNothing(row: Row, fs: seq<Field>)
    requires forall f | f in fs :: f.key !in {1, 2, 3, 5}
    ensures SetFields(row, fs) == Some(row)
  {
    if fs == [] {
    } else {
      SetNothing(row, fs[..|fs| - 1]);
    }
  }

  lemma SetOne(row: Row, w: Wire)
    ensures SetFields(row, ReadAll([w])) == SetField(row, Read(w))
  {
    hide SetField;
    assert ReadAll([w]) == [Read(w)];
    assert [Read(w)][..0] == [];
  }

  lemma SetHead(row: Row, r: LogRecord)
    requires row.timestamp.None? && row.severityNumber.None? && row.severityText.None? && row.body.None?
    ensures SetFields(row, ReadAll(Head(r))) ==
              if r.body.Some? && !Named(r.body.value) then None
              else Some(ShownRecord(row.resource, r).(attributes := row.attributes))
  {
    hide AnyValue, AnyWires, Message, Shown, Named, Encode, Decode, SetFields, ReadAll, KeyValues;
    var time := if r.time == 0 then [] else [Fixed64(1, r.time)];
    var severity := if r.severity == 0 then [] else [Plain(2, r.severity)];
    var text := if r.text == [] then [] else [Lengthy(3, Encode(r.text))];
    var body := if r.body.None? then [] else [Lengthy(5, Message(AnyWires(r.body.value)))];
    SetNone(row);
    SetFieldsOf(row, time);
    var row1 := row.(timestamp := if r.time == 0 then None else Some(Num(r.time)));
    SetFieldsOf(row1, severity);
    var row2 := row1.(severityNumber := if r.severity == 0 then None else Some(Num(r.severity)));
    SetFieldsOf(row2, text);
    RoundTrip(r.text);
    var row3 := row2.(severityText := if r.text == [] then None else Some(r.text));
    SetFieldsOf(row3, body);
    if r.body.Some? { AnyRoundTrip(r.body.value); }
    ReadAllAppend(time, severity);
    ReadAllAppend(time + severity, text);
    ReadAllAppend(time + severity + text, body);
    SetFieldsAppend(row, ReadAll(time), ReadAll(severity));
    SetFieldsAppend(row, ReadAll(time + severity), ReadAll(text));
    SetFieldsAppend(row, ReadAll(time + severity + text), ReadAll(body));
  }

  lemma SetNone(row: Row)
    ensures SetFields(row, ReadAll([])) == Some(row)
  {
  }

  lemma SetFieldsOf(row: Row, ws: seq<Wire>)
    requires |ws| <= 1
    ensures SetFields(row, ReadAll(ws)) == if ws == [] then Some(row) else SetField(row, Read(ws[0]))
  {
    if ws != [] {
      assert ws == [ws[0]];
      SetOne(row, ws[0]);
    }
  }

  lemma RecordRoundTrip(resource: seq<Item>, r: LogRecord)
    requires Proper(r)
    ensures RecordRow(resource, Message(RecordWires(r))) ==
              if RecordNamed(r) then Some(ShownRecord(resource, r)) else None
  {
    hide Fields, Message, Head, SetFields, SetField, KeyValues, Named, Shown, WellFormed, ReadAll, ShownEntries;
    var head, entries, rest := Head(r), EntryWires(r.attributes, 6), r.rest;
    FieldsRoundTrip(RecordWires(r));
    ReadAllAppend(head, entries);
    ReadAllAppend(head + entries, rest);
    KeysOf(head);
    KeysOf(entries);
    KeysOf(rest);
    EntryKeys(r.attributes, 6);
    EntriesRoundTrip(ReadAll(head), r.attributes, 6);
    OthersIgnored(ReadAll(head + entries), ReadAll(rest), 6);
    if EntriesNamed(r.attributes) {
      var row := Row(resource, ShownEntries(r.attributes), None, None, None, None);
      SetHead(row, r);
      SetFieldsAppend(row, ReadAll(head), ReadAll(entries));
      SetFieldsAppend(row, ReadAll(head + entries), ReadAll(rest));
      if r.body.None? || Named(r.body.value) {
        SetNothing(ShownRecord(resource, r), ReadAll(entries));
        SetNothing(ShownRecord(resource, r), ReadAll(rest));
      }
    }
  }

  lemma KeysOf(ws: seq<Wire>)
    ensures forall f | f in ReadAll(ws) :: exists w :: w in ws && f == Read(w)
  {
    forall f | f in ReadAll(ws) ensures exists w :: w in ws && f == Read(w) {
      var i :| 0 <= i < |ws| && ReadAll(ws)[i] == f;
      assert ws[i] in ws;
    }
  }

  lemma {:induction false} EntryKeys(entries: seq<Entry>, number: nat)
    ensures forall w | w in EntryWires(entries, number) :: Read(w).key == number
  {
    if entries == [] {
    } else {
      EntryKeys(entries[..|entries| - 1], number);
    }
  }

  // ---------------------------------------------------------------- messages of messages

  /** The rows of some message bodies, one after the other. */
  function Each(bodies: seq<seq<Byte>>, read: seq<Byte> -> Option<seq<Row>>): Option<seq<Row>> {
    if bodies == [] then Some([])
    else
      match Each(bodies[..|bodies| - 1], read)
      case None => None
      case Some(rows) =>
        match read(bodies[|bodies| - 1])
        case None => None
        case Some(more) => Some(rows + more)
  }

  lemma {:induction false} CollectOthers(fs: seq<Field>, others: seq<Field>, number: nat, read: seq<Byte> -> Option<seq<Row>>)
    requires forall f | f in others :: f.key != number
    ensures Collect(fs + others, number, read) == Collect(fs, number, read)
  {
    if others == [] {
      assert fs + others == fs;
    } else {
      CollectOthers(fs, others[..|others| - 1], number, read);
      assert (fs + others)[..|fs + others| - 1] == fs + others[..|others| - 1];
    }
  }

  lemma {:induction false} CollectNested(before: seq<Field>, bodies: seq<seq<Byte>>, number: nat,
                                         read: seq<Byte> -> Option<seq<Row>>)
    requires forall f | f in before :: f.key != number
    ensures Collect(before + ReadAll(Nested(number, bodies)), number, read) == Each(bodies, read)
  {
    if bodies == [] {
      assert before + ReadAll(Nested(number, bodies)) == [] + before;
      CollectOthers([], before, number, read);
      assert [] + before == before;
    } else {
      var init, last := bodies[..|bodies| - 1], Lengthy(number, bodies[|bodies| - 1]);
      CollectNested(before, init, number, read);
      ReadOne(Nested(number, init), last);
      var fs := before + ReadAll(Nested(number, bodies));
      assert fs == before + ReadAll(Nested(number, init)) + [Read(last)];
      assert fs[..|fs| - 1] == before + ReadAll(Nested(number, init));
    }
  }

  /** A message of unread fields, nested messages, and unread fields. */
  lemma CollectMessage(before: seq<Wire>, bodies: seq<seq<Byte>>, rest: seq<Wire>, number: nat,
                       read: seq<Byte> -> Option<seq<Row>>)
    requires Unread(before, {number}) && Unread(rest, {number})
    ensures Fields(Message(before + Nested(number, bodies) + rest)) == Some(ReadAll(before + Nested(number, bodies) + rest))
    ensures Collect(ReadAll(before + Nested(number, bodies) + rest), number, read) == Each(bodies, read)
  {
    hide Fields, Message, WellFormed, Collect, ReadAll, Nested;
    var nested := Nested(number, bodies);
    FieldsRoundTrip(before + nested + rest);
    ReadAllAppend(before, nested);
    ReadAllAppend(before + nested, rest);
    KeysOf(before);
    KeysOf(rest);
    CollectNested(ReadAll(before), bodies, number, read);
    CollectOthers(ReadAll(before + nested), ReadAll(rest), number, read);
  }

  lemma {:induction false} RecordsRoundTrip(resource: seq<Item>, records: seq<LogRecord>)
    requires forall i | 0 <= i < |records| :: Proper(records[i])
    ensures Each(RecordBodies(records), RecordReader(resource)) ==
              if forall i | 0 <= i < |records| :: RecordNamed(records[i]) then Some(ShownRecords(resource, records)) else None
  {
    hide RecordRow, Message, RecordWires, RecordNamed, ShownRecord, Proper, KeyValues, Fields, AnyValue, SetFields, Collect;
    if records == [] {
    } else {
      var init, last := records[..|records| - 1], records[|records| - 1];
      RecordsRoundTrip(resource, init);
      RecordRoundTrip(resource, last);
      assert RecordBodies(records)[..|RecordBodies(records)| - 1] == RecordBodies(init);
      assert records == init + [last];
    }
  }

  lemma {:induction false} ScopesRoundTrip(resource: seq<Item>, scopes: seq<ScopeLogs>)
    requires forall i | 0 <= i < |scopes| :: ProperScope(scopes[i])
    ensures Each(ScopeBodies(scopes), ScopeReader(resource)) ==
              if forall i | 0 <= i < |scopes| :: ScopeNamed(scopes[i]) then Some(ShownScopes(resource, scopes)) else None
  {
    hide Fields, Message, Collect, RecordNamed, ShownRecords, RecordReader, RecordBodies, ReadAll, Proper, Nested, Unread;
    if scopes == [] {
    } else {
      var init, last := scopes[..|scopes| - 1], scopes[|scopes| - 1];
      ScopesRoundTrip(resource, init);
      CollectMessage(last.scope, RecordBodies(last.records), last.rest, 2, RecordReader(resource));
      RecordsRoundTrip(resource, last.records);
      assert ScopeBodies(scopes)[..|ScopeBodies(scopes)| - 1] == ScopeBodies(init);
      assert scopes == init + [last];
    }
  }

  lemma ResourceRoundTrip(r: Resource)
    requires ProperResource(r)
    ensures Fields(Message(ResourceWires(r))).Some?
    ensures KeyValues(Fields(Message(ResourceWires(r))).value, 1) ==
              if EntriesNamed(r.attributes) then Some(ShownEntries(r.attributes)) else None
  {
    hide Fields, Message, KeyValues, WellFormed, ReadAll, EntriesNamed, ShownEntries;
    var entries := EntryWires(r.attributes, 1);
    FieldsRoundTrip(ResourceWires(r));
    ReadAllAppend(entries, r.rest);
    KeysOf(r.rest);
    EntriesRoundTrip([], r.attributes, 1);
    assert [] + ReadAll(entries) == ReadAll(entries);
    OthersIgnored(ReadAll(entries), ReadAll(r.rest), 1);
  }

  lemma {:induction false} NoResource(parts: seq<Field>)
    requires forall f | f in parts :: f.key != 1
    ensures ResourceOf(parts) == Some([])
  {
    if parts == [] {
    } else {
      NoResource(parts[1..]);
    }
  }

  lemma LogsRoundTrip(r: ResourceLogs)
    requires ProperLogs(r)
    ensures ResourceLogsReader()(Message(LogsWires(r))) ==
              if LogsNamed(r) then Some(ShownScopes(ShownResource(r.resource), r.scopes)) else None
  {
    hide Fields, Message, Collect, KeyValues, EntriesNamed, ShownEntries, ScopeReader, ScopeBodies, ReadAll, ProperScope, ScopeNamed;
    hide ResourceWires, ShownScopes, ProperResource, Nested;
    var head := if r.resource.None? then [] else [Lengthy(1, Message(ResourceWires(r.resource.value)))];
    var nested := Nested(2, ScopeBodies(r.scopes));
    var parts := ReadAll(LogsWires(r));
    CollectMessage(head, ScopeBodies(r.scopes), r.rest, 2, ScopeReader(ShownResource(r.resource)));
    ScopesRoundTrip(ShownResource(r.resource), r.scopes);
    if r.resource.None? {
      KeysOf(LogsWires(r));
      NoResource(parts);
    } else {
      ResourceRoundTrip(r.resource.value);
      FirstPart(head[0], nested + r.rest);
      assert LogsWires(r) == [head[0]] + (nested + r.rest);
    }
  }

  lemma FirstPart(w: Wire, rest: seq<Wire>)
    ensures ReadAll([w] + rest) != [] && ReadAll([w] + rest)[0] == Read(w)
  {
  }

  /** For every request: the rows are those of its records, in order, each with its resource,
      unless a key somewhere is empty, and then the whole request raises. */
  lemma {:induction false} RequestRoundTrip(request: seq<ResourceLogs>)
    requires forall i | 0 <= i < |request| :: ProperLogs(request[i])
    ensures Rows(Message(RequestWires(request))) ==
              if forall i | 0 <= i < |request| :: LogsNamed(request[i]) then Some(ShownLogs(request)) else None
  {
    hide Fields, Message, Collect, ReadAll, LogsNamed, ProperLogs, ResourceLogsReader, Nested, LogsBodies, ShownLogs;
    CollectMessage([], LogsBodies(request), [], 1, ResourceLogsReader());
    assert [] + Nested(1, LogsBodies(request)) + [] == RequestWires(request);
    AllLogsRoundTrip(request);
  }

  lemma {:induction false} AllLogsRoundTrip(request: seq<ResourceLogs>)
    requires forall i | 0 <= i < |request| :: ProperLogs(request[i])
    ensures Each(LogsBodies(request), ResourceLogsReader()) ==
              if forall i | 0 <= i < |request| :: LogsNamed(request[i]) then Some(ShownLogs(request)) else None
  {
    hide Fields, Message, Collect, LogsNamed, ShownScopes, ProperLogs, LogsWires, ResourceLogsReader;
    if request == [] {
    } else {
      var init, last := request[..|request| - 1], request[|request| - 1];
      AllLogsRoundTrip(init);
      LogsRoundTrip(last);
      assert LogsBodies(request)[..|LogsBodies(request)| - 1] == LogsBodies(init);
      assert request == init + [last];
    }
  }

  // ---------------------------------------------------------------- the loops

  lemma {:induction false} FailedRow(row: Row, fs: seq<Field>, i: nat)
    requires i <= |fs|
    ensures SetFields(row, fs[..i]).None? ==> SetFields(row, fs).None?
  {
    SetFieldsAppend(row, fs[..i], fs[i..]);
    assert fs == fs[..i] + fs[i..];
  }

  lemma {:induction false} FailedRows(fs: seq<Field>, i: nat, number: nat, read: seq<Byte> -> Option<seq<Row>>)
    requires i <= |fs|
    ensures Collect(fs[..i], number, read).None? ==> Collect(fs, number, read).None?
    decreases |fs| - i
  {
    if i == |fs| {
      assert fs[..i] == fs;
    } else {
      NextField(fs, i);
      FailedRows(fs, i + 1, number, read);
    }
  }

  method ReadRecord(resource: seq<Item>, record: seq<Byte>) returns (r: Option<Row>)
    ensures r == RecordRow(resource, record)
  {
    hide Fields, KeyValues, Decode, AnyValue;
    var attributes := ReadKeyValues(record, 6);
    if attributes.None? { return None; }
    var row := Row(resource, attributes.value, None, None, None, None);
    ghost var empty := row;
    var fs := ReadFields(record);
    if fs.None? { return None; }
    for i := 0 to |fs.value|
      invariant SetFields(empty, fs.value[..i]) == Some(row)
    {
      NextField(fs.value, i);
      FailedRow(empty, fs.value, i + 1);
      var key, v := fs.value[i].key, fs.value[i].v;
      if key == 1 {
        row := row.(timestamp := Some(v));
      } else if key == 2 {
        row := row.(severityNumber := Some(v));
      } else if key == 3 {
        if v.Num? { return None; }
        var text := Decode(v.bytes);
        if text.None? { return None; }
        row := row.(severityText := text);
      } else if key == 5 {
        if v.Num? { return None; }
        var body := ReadAny(v.bytes);
        if body.None? { return None; }
        row := row.(body := body);
      }
    }
    assert fs.value[..|fs.value|] == fs.value;
    r := Some(row);
  }

  method ReadScope(resource: seq<Item>, scopeLogs: seq<Byte>) returns (r: Option<seq<Row>>)
    ensures r == ScopeReader(resource)(scopeLogs)
  {
    hide Fields, RecordRow;
    var fs := ReadFields(scopeLogs);
    if fs.None? { return None; }
    var rows := [];
    for i := 0 to |fs.value|
      invariant Collect(fs.value[..i], 2, RecordReader(resource)) == Some(rows)
    {
      NextField(fs.value, i);
      FailedRows(fs.value, i + 1, 2, RecordReader(resource));
      if fs.value[i].key != 2 { continue; }
      if fs.value[i].v.Num? { return None; }
      var row := ReadRecord(resource, fs.value[i].v.bytes);
      if row.None? { return None; }
      rows := rows + [row.value];
    }
    assert fs.value[..|fs.value|] == fs.value;
    r := Some(rows);
  }

  method ReadResource(parts: seq<Field>) returns (r: Option<seq<Item>>)
    ensures r == ResourceOf(parts)
  {
    hide Fields, KeyValues;
    for i := 0 to |parts|
      invariant ResourceOf(parts) == ResourceOf(parts[i..])
    {
      assert parts[i..][1..] == parts[i + 1..];
      if parts[i].key == 1 {
        if parts[i].v.Num? { return None; }
        r := ReadKeyValues(parts[i].v.bytes, 1);
        return;
      }
    }
    r := Some([]);
  }

  method ReadResourceLogs(resourceLogs: seq<Byte>) returns (r: Option<seq<Row>>)
    ensures r == ResourceLogsReader()(resourceLogs)
  {
    hide Fields, ScopeReader;
    var parts := ReadFields(resourceLogs);
    if parts.None? { return None; }
    var resource := ReadResource(parts.value);
    if resource.None? { return None; }
    var rows := [];
    for i := 0 to |parts.value|
      invariant Collect(parts.value[..i], 2, ScopeReader(resource.value)) == Some(rows)
    {
      NextField(parts.value, i);
      FailedRows(parts.value, i + 1, 2, ScopeReader(resource.value));
      if parts.value[i].key != 2 { continue; }
      if parts.value[i].v.Num? { return None; }
      var more := ReadScope(resource.value, parts.value[i].v.bytes);
      if more.None? { return None; }
      rows := rows + more.value;
    }
    assert parts.value[..|parts.value|] == parts.value;
    r := Some(rows);
  }

  method DecodeRequest(b: seq<Byte>) returns (r: Option<seq<Row>>)
    ensures r == Rows(b)
  {
    hide Fields, ResourceLogsReader;
    var fs := ReadFields(b);
    if fs.None? { return None; }
    var rows := [];
    for i := 0 to |fs.value|
      invariant Collect(fs.value[..i], 1, ResourceLogsReader()) == Some(rows)
    {
      NextField(fs.value, i);
      FailedRows(fs.value, i + 1, 1, ResourceLogsReader());
      if fs.value[i].key != 1 { continue; }
      if fs.value[i].v.Num? { return None; }
      var more := ReadResourceLogs(fs.value[i].v.bytes);
      if more.None? { return None; }
      rows := rows + more.value;
    }
    assert fs.value[..|fs.value|] == fs.value;
    r := Some(rows);
  }
}
