/** The full-inventory policy delta check: nothing but the sources of two forwards, and the
    destinations of their generated returns, may differ between two snapshots. */
module PolicyDelta {
  import opened Wrappers

  /** JSON as Python loads it. Numbers are their exact values. */
  datatype Json =
    | Null
    | Bool(b: bool)
    | Number(x: real)
    | Text(s: string)
    | Array(items: seq<Json>)
    | Object(fields: map<string, Json>)

  type Obj = map<string, Json>
  type Inventory = map<Json, Obj>

  /** Python's `==` is equality of these: True is 1 and False is 0, at any depth. */
  function Canon(v: Json): Json {
    match v
    case Bool(b) => Number(if b then 1.0 else 0.0)
    case Array(items) => Array(seq(|items|, i requires 0 <= i < |items| => Canon(items[i])))
    case Object(fields) => Object(map k | k in fields :: Canon(fields[k]))
    case _ => v
  }

  predicate Falsy(v: Json) {
    match v
    case Null => true
    case Bool(b) => !b
    case Number(x) => x == 0.0
    case Text(s) => s == ""
    case Array(items) => items == []
    case Object(fields) => fields == map[]
  }

  predicate Hashable(v: Json) { !v.Array? && !v.Object? }

  function Texts(ss: seq<string>): Json { Array(seq(|ss|, i requires 0 <= i < |ss| => Text(ss[i]))) }

  datatype Forward = Forward(ident: string, vip: string)
  const FORWARDS := [Forward("6ab93666519d986cdf987240", "10.32.140.1"), Forward("6ad6c08f519d986cdf2ee284", "10.32.130.1")]
  const REMOTE := "6a97a4d7a6bd0ee70a238923"
  const INTERNAL := "677f0352a46263726567a989"
  const OLD := ["10.32.19.103"]
  const NEW := ["10.32.19.103", "10.32.19.104"]

  // ---------------------------------------------------------------- reading a snapshot

  function PolicyList(snapshot: Json): Option<seq<Json>> {
    match snapshot
    case Array(items) => Some(items)
    case Object(fields) => if "netbird_policies" in fields && fields["netbird_policies"].Array? then Some(fields["netbird_policies"].items) else None
    case _ => None
  }

  /** A policy's id as a dict key, or None where reading it raises. */
  function Ident(policy: Json): Option<Json> {
    if policy.Object? && "_id" in policy.fields && Hashable(policy.fields["_id"]) then Some(Canon(policy.fields["_id"])) else None
  }

  /** One more policy; None when it is not one, or its id is taken. */
  function Insert(found: Option<Inventory>, policy: Json): Option<Inventory> {
    match found
    case None => None
    case Some(inv) =>
      match Ident(policy)
      case None => None
      case Some(k) => if k in inv then None else Some(inv[k := policy.fields])
  }

  /** The policies by id. */
  function Collect(policies: seq<Json>): Option<Inventory> {
    if policies == [] then Some(map[])
    else Insert(Collect(policies[..|policies| - 1]), policies[|policies| - 1])
  }

  function Objects(snapshot: Json): Option<Inventory> {
    match PolicyList(snapshot)
    case None => None
    case Some(policies) => Collect(policies)
  }

  method ReadObjects(snapshot: Json) returns (r: Option<Inventory>)
    ensures r == Objects(snapshot)
  {
    hide Canon;
    var list := snapshot;
    if snapshot.Object? {
      if "netbird_policies" !in snapshot.fields { return None; }
      list := snapshot.fields["netbird_policies"];
    }
    if !list.Array? { return None; }
    var result: Inventory := map[];
    for i := 0 to |list.items|
      invariant Collect(list.items[..i]) == Some(result)
    {
      var obj := list.items[i];
      assert list.items[..i + 1][..i] == list.items[..i];
      CollectFails(list.items, i + 1);
      var ident := Ident(obj);
      if ident.None? || ident.value in result { return None; }
      result := result[ident.value := obj.fields];
    }
    assert list.items[..|list.items|] == list.items;
    r := Some(result);
  }

  lemma {:induction false} CollectFails(policies: seq<Json>, i: nat)
    requires i <= |policies|
    ensures Collect(policies[..i]).None? ==> Collect(policies).None?
    decreases |policies| - i
  {
    if i == |policies| {
      assert policies[..i] == policies;
    } else {
      assert policies[..i + 1][..i] == policies[..i];
      CollectFails(policies, i + 1);
    }
  }

  lemma InsertCommutes(found: Option<Inventory>, a: Json, b: Json)
    ensures Insert(Insert(found, a), b) == Insert(Insert(found, b), a)
  {
    if found.Some? && Ident(a).Some? && Ident(b).Some? && Ident(a) != Ident(b) {
      var k, m, inv := Ident(a).value, Ident(b).value, found.value;
      assert inv[k := a.fields][m := b.fields] == inv[m := b.fields][k := a.fields];
    }
  }

  /** Any one policy may as well be the last. */
  lemma {:induction false} CollectWithout(policies: seq<Json>, i: nat)
    requires i < |policies|
    ensures Collect(policies) == Insert(Collect(policies[..i] + policies[i + 1..]), policies[i])
  {
    hide Insert;
    var init, last := policies[..|policies| - 1], policies[|policies| - 1];
    if i == |init| {
      assert policies[..i] + policies[i + 1..] == init;
    } else {
      var less := init[..i] + init[i + 1..];
      CollectWithout(init, i);
      InsertCommutes(Collect(less), init[i], last);
      assert policies[..i] + policies[i + 1..] == less + [last];
      assert (less + [last])[..|less|] == less;
    }
  }

  lemma Removed(a: seq<Json>, i: nat)
    requires i < |a|
    ensures multiset(a[..i] + a[i + 1..]) == multiset(a) - multiset{a[i]}
  {
    assert a == a[..i] + [a[i]] + a[i + 1..];
  }

  /** The inventory does not depend on the order of the list. */
  lemma {:induction false} CollectInAnyOrder(a: seq<Json>, b: seq<Json>)
    requires multiset(a) == multiset(b)
    ensures Collect(a) == Collect(b)
    decreases |b|
  {
    hide Insert;
    assert |multiset(a)| == |multiset(b)| && |a| == |b|;
    if b != [] {
      var n := |b| - 1;
      assert b[n] in multiset(b);
      var i :| 0 <= i < |a| && a[i] == b[n];
      Removed(a, i);
      Removed(b, n);
      assert b[..n] + b[n + 1..] == b[..n];
      CollectInAnyOrder(a[..i] + a[i + 1..], b[..n]);
      CollectWithout(a, i);
    }
  }

  // ---------------------------------------------------------------- one forward and its return

  /** `m[key] == v`, where a missing key raises. */
  predicate Is(m: Obj, key: string, v: Json) { key in m && Canon(m[key]) == Canon(v) }

  /** `m[key] is True` */
  predicate IsTrue(m: Obj, key: string) { key in m && m[key] == Bool(true) }

  /** `not m[key]` and `not m.get(key)` */
  predicate Off(m: Obj, key: string) { key in m && Falsy(m[key]) }
  predicate Unset(m: Obj, key: string) { key !in m || Falsy(m[key]) }

  /** `set(v) == {'RELATED', 'ESTABLISHED'}`: a dict counts by its keys; anything else raises or differs. */
  predicate StatesAre(v: Json) {
    match v
    case Array(items) =>
      && (forall x | x in items :: x == Text("RELATED") || x == Text("ESTABLISHED"))
      && Text("RELATED") in items && Text("ESTABLISHED") in items
    case Object(fields) => fields.Keys == {"RELATED", "ESTABLISHED"}
    case _ => false
  }

  predicate EndpointOk(m: Obj, key: string, ips: seq<string>, zone: string, port: Option<string>) {
    && key in m && m[key].Object?
    && var e := m[key].fields;
       && Is(e, "ips", Texts(ips)) && Is(e, "zone_id", Text(zone))
       && Is(e, "matching_target", Text("IP")) && Is(e, "matching_target_type", Text("SPECIFIC"))
       && Off(e, "match_opposite_ips") && Off(e, "match_opposite_ports")
       && (if port.Some? then Is(e, "port", Text(port.value)) && Is(e, "port_matching_type", Text("SPECIFIC"))
           else Is(e, "port_matching_type", Text("ANY")) && Unset(e, "match_mac"))
  }

  /** Enabled, in the literal sense: 1 is equal to true but is not it. */
  predicate Enabled(forward: Obj, reply: Obj) {
    IsTrue(forward, "enabled") && IsTrue(reply, "enabled") && IsTrue(forward, "create_allow_respond")
  }

  predicate ValidPair(forward: Obj, reply: Obj, vip: string, sources: seq<string>) {
    && Is(forward, "action", Text("ALLOW")) && Is(reply, "action", Text("ALLOW"))
    && Enabled(forward, reply)
    && Is(forward, "protocol", Text("tcp")) && Is(reply, "protocol", Text("tcp"))
    && Is(forward, "ip_version", Text("IPV4")) && Is(reply, "ip_version", Text("IPV4"))
    && "_id" in forward && Is(reply, "origin_id", forward["_id"])
    && Is(reply, "connection_state_type", Text("RESPOND_ONLY"))
    && "connection_states" in reply && StatesAre(reply["connection_states"])
    && Is(forward, "connection_state_type", Text("ALL")) && Off(forward, "connection_states")
    && Is(forward, "schedule", Object(map["mode" := Text("ALWAYS")]))
    && EndpointOk(forward, "source", sources, REMOTE, None)
    && EndpointOk(forward, "destination", [vip], INTERNAL, Some("443"))
    && EndpointOk(reply, "source", [vip], INTERNAL, Some("443"))
    && EndpointOk(reply, "destination", sources, REMOTE, None)
    && Unset(forward, "match_opposite_protocol") && Unset(reply, "match_opposite_protocol")
  }

  // ---------------------------------------------------------------- the delta

  predicate IsReply(p: Obj, ident: string) { "origin_id" in p && p["origin_id"] == Text(ident) }

  function ReplyIds(inv: Inventory, ident: string): set<Json> {
    set k | k in inv && IsReply(inv[k], ident)
  }

  /** The one return of a forward. */
  predicate IsReturn(inv: Inventory, ident: string, k: Json) { ReplyIds(inv, ident) == {k} }

  predicate PairReady(inv: Inventory, f: Forward, k: Json) {
    Text(f.ident) in inv && IsReturn(inv, f.ident, k) && ValidPair(inv[Text(f.ident)], inv[k], f.vip, OLD)
  }

  predicate HasPair(inv: Inventory, f: Forward) { exists k | k in inv :: PairReady(inv, f, k) }

  /** Both forwards are there with one valid return each. */
  predicate Prepared(inv: Inventory) {
    forall i | 0 <= i < |FORWARDS| :: HasPair(inv, FORWARDS[i])
  }

  /** `m` with the addresses of one endpoint replaced. */
  function Replace(m: Obj, key: string): Obj
    requires key in m && m[key].Object?
  {
    m[key := Object(m[key].fields["ips" := Texts(NEW)])]
  }

  function Semantic(m: Obj): Obj { map k | k in m && k != "hits" && k != "last_hit" :: m[k] }

  function CanonObj(m: Obj): Obj { map k | k in m :: Canon(m[k]) }

  /** Equal but for the two counters. */
  predicate Same(a: Obj, b: Obj) { CanonObj(Semantic(a)) == CanonObj(Semantic(b)) }

  predicate IsForward(k: Json) { exists i | 0 <= i < |FORWARDS| :: k == Text(FORWARDS[i].ident) }
  predicate IsAnyReturn(inv: Inventory, k: Json) { exists i | 0 <= i < |FORWARDS| :: IsReturn(inv, FORWARDS[i].ident, k) }

  lemma Editable(inv: Inventory, k: Json)
    requires Prepared(inv) && k in inv
    ensures IsForward(k) ==> "source" in inv[k] && inv[k]["source"].Object?
    ensures IsAnyReturn(inv, k) ==> "destination" in inv[k] && inv[k]["destination"].Object?
  {
    hide Is, Off, Unset, IsTrue, Texts, StatesAre;
    forall i | 0 <= i < |FORWARDS|
      ensures k == Text(FORWARDS[i].ident) ==> "source" in inv[k] && inv[k]["source"].Object?
      ensures IsReturn(inv, FORWARDS[i].ident, k) ==> "destination" in inv[k] && inv[k]["destination"].Object?
    {
      assert HasPair(inv, FORWARDS[i]);
      var r :| r in inv && PairReady(inv, FORWARDS[i], r);
      if IsReturn(inv, FORWARDS[i].ident, k) {
        assert k in ReplyIds(inv, FORWARDS[i].ident) && k == r;
      }
    }
  }

  /** The policy under `k` after the edit. */
  function Expected(inv: Inventory, k: Json): Obj
    requires Prepared(inv) && k in inv
  {
    Editable(inv, k);
    if IsForward(k) then
      Replace(inv[k], "source")
    else if IsAnyReturn(inv, k) then
      Replace(inv[k], "destination")
    else inv[k]
  }

  /** The same policies under the same ids, with only those addresses replaced. */
  predicate OnlyDelta(before: Inventory, after: Inventory)
    requires Prepared(before)
  {
    after.Keys == before.Keys && forall k | k in before :: Same(after[k], Expected(before, k))
  }

  /** The edited forwards and returns are still literally enabled. */
  predicate StillEnabled(before: Inventory, after: Inventory)
    requires after.Keys == before.Keys
  {
    forall i, k | 0 <= i < |FORWARDS| && Text(FORWARDS[i].ident) in before && IsReturn(before, FORWARDS[i].ident, k) && k in before ::
      Enabled(after[Text(FORWARDS[i].ident)], after[k])
  }

  // ---------------------------------------------------------------- what equality keeps

  lemma SameAt(a: Obj, b: Obj, key: string)
    requires Same(a, b) && key != "hits" && key != "last_hit"
    ensures key in a <==> key in b
    ensures key in a ==> Canon(a[key]) == Canon(b[key])
  {
    hide Canon;
    assert key in a <==> key in CanonObj(Semantic(a));
    assert key in b <==> key in CanonObj(Semantic(b));
    if key in a {
      assert CanonObj(Semantic(a))[key] == Canon(a[key]);
    }
  }

  lemma FieldAt(a: Json, b: Json, key: string)
    requires Canon(a) == Canon(b) && a.Object?
    ensures b.Object? && (key in a.fields <==> key in b.fields)
    ensures key in a.fields ==> Canon(a.fields[key]) == Canon(b.fields[key])
  {
    assert key in a.fields <==> key in Canon(a).fields;
    assert key in b.fields <==> key in Canon(b).fields;
    if key in a.fields {
      assert Canon(a).fields[key] == Canon(a.fields[key]);
    }
  }

  lemma FalsyCanon(v: Json)
    ensures Falsy(v) == Falsy(Canon(v))
  {
    match v
    case Object(fields) => assert Canon(v).fields.Keys == fields.Keys;
    case _ =>
  }

  lemma StatesCanon(v: Json)
    ensures StatesAre(v) == StatesAre(Canon(v))
  {
    match v
    case Object(fields) => assert Canon(v).fields.Keys == fields.Keys;
    case Array(items) =>
      var c := Canon(v).items;
      assert forall i | 0 <= i < |items| :: c[i] == Canon(items[i]);
      TextCanon(items, c, "RELATED");
      TextCanon(items, c, "ESTABLISHED");
      if StatesAre(v) {
        forall x | x in c ensures x == Text("RELATED") || x == Text("ESTABLISHED") {
          var i :| 0 <= i < |c| && c[i] == x;
          assert items[i] in items;
        }
      }
      if StatesAre(Canon(v)) {
        forall x | x in items ensures x == Text("RELATED") || x == Text("ESTABLISHED") {
          var i :| 0 <= i < |items| && items[i] == x;
          assert c[i] in c;
        }
      }
    case _ =>
  }

  lemma TextCanon(items: seq<Json>, c: seq<Json>, s: string)
    requires |c| == |items| && forall i | 0 <= i < |items| :: c[i] == Canon(items[i])
    ensures Text(s) in items <==> Text(s) in c
  {
    if Text(s) in items {
      var i :| 0 <= i < |items| && items[i] == Text(s);
      assert c[i] == Text(s);
    }
    if Text(s) in c {
      var i :| 0 <= i < |c| && c[i] == Text(s);
      assert items[i] == Text(s);
    }
  }

  /** A test of one key comes out the same on equal values. */
  lemma Agree(a: Obj, b: Obj, key: string)
    requires key in a <==> key in b
    requires key in a ==> Canon(a[key]) == Canon(b[key])
    ensures forall v :: Is(a, key, v) <==> Is(b, key, v)
    ensures Off(a, key) <==> Off(b, key)
    ensures Unset(a, key) <==> Unset(b, key)
  {
    hide Canon, Falsy;
    if key in a {
      FalsyCanon(a[key]);
      FalsyCanon(b[key]);
    }
  }

  lemma AgreeAt(a: Obj, b: Obj, key: string)
    requires Same(a, b) && key != "hits" && key != "last_hit"
    ensures forall v :: Is(a, key, v) <==> Is(b, key, v)
    ensures Off(a, key) <==> Off(b, key)
    ensures Unset(a, key) <==> Unset(b, key)
  {
    hide Same, Is, Off, Unset;
    SameAt(a, b, key);
    Agree(a, b, key);
  }

  lemma AgreeWithin(a: Json, b: Json, key: string)
    requires Canon(a) == Canon(b) && a.Object?
    ensures b.Object?
    ensures forall v :: Is(a.fields, key, v) <==> Is(b.fields, key, v)
    ensures Off(a.fields, key) <==> Off(b.fields, key)
    ensures Unset(a.fields, key) <==> Unset(b.fields, key)
  {
    hide Canon, Is, Off, Unset;
    FieldAt(a, b, key);
    Agree(a.fields, b.fields, key);
  }

  lemma EndpointAt(a: Obj, b: Obj, key: string, ips: seq<string>, zone: string, port: Option<string>)
    requires Same(a, b) && key != "hits" && key != "last_hit" && EndpointOk(b, key, ips, zone, port)
    ensures EndpointOk(a, key, ips, zone, port)
  {
    hide Same, Is, Off, Unset, Canon, Texts;
    SameAt(a, b, key);
    var e, e' := b[key], a[key];
    AgreeWithin(e, e', "ips");
    AgreeWithin(e, e', "zone_id");
    AgreeWithin(e, e', "matching_target");
    AgreeWithin(e, e', "matching_target_type");
    AgreeWithin(e, e', "match_opposite_ips");
    AgreeWithin(e, e', "match_opposite_ports");
    AgreeWithin(e, e', "port");
    AgreeWithin(e, e', "port_matching_type");
    AgreeWithin(e, e', "match_mac");
  }

  lemma EndpointReplaced(m: Obj, key: string, zone: string)
    requires EndpointOk(m, key, OLD, zone, None)
    ensures EndpointOk(Replace(m, key), key, NEW, zone, None)
  {
    hide Canon, Texts, Falsy;
  }

  lemma Kept(m: Obj, replaced: string, key: string)
    requires replaced in m && m[replaced].Object? && key != replaced
    ensures key in Replace(m, replaced) <==> key in m
    ensures key in m ==> Replace(m, replaced)[key] == m[key]
    ensures forall v :: Is(Replace(m, replaced), key, v) <==> Is(m, key, v)
    ensures Off(Replace(m, replaced), key) <==> Off(m, key)
    ensures Unset(Replace(m, replaced), key) <==> Unset(m, key)
    ensures IsTrue(Replace(m, replaced), key) <==> IsTrue(m, key)
  {
    hide Canon, Falsy, Texts;
  }

  lemma PairReplaced(forward: Obj, reply: Obj, vip: string)
    requires ValidPair(forward, reply, vip, OLD)
    ensures ValidPair(Replace(forward, "source"), Replace(reply, "destination"), vip, NEW)
  {
    hide Replace, Is, Off, Unset, IsTrue, EndpointOk, StatesAre, Texts, Falsy, Canon;
    EndpointIsObject(forward, "source", OLD, REMOTE, None);
    EndpointIsObject(reply, "destination", OLD, REMOTE, None);
    EndpointReplaced(forward, "source", REMOTE);
    EndpointReplaced(reply, "destination", REMOTE);
    EndpointKept(forward, "source", "destination", [vip], INTERNAL, Some("443"));
    EndpointKept(reply, "destination", "source", [vip], INTERNAL, Some("443"));
    Kept(forward, "source", "action");
    Kept(forward, "source", "enabled");
    Kept(forward, "source", "create_allow_respond");
    Kept(forward, "source", "protocol");
    Kept(forward, "source", "ip_version");
    Kept(forward, "source", "_id");
    Kept(forward, "source", "connection_state_type");
    Kept(forward, "source", "connection_states");
    Kept(forward, "source", "schedule");
    Kept(forward, "source", "match_opposite_protocol");
    Kept(reply, "destination", "action");
    Kept(reply, "destination", "enabled");
    Kept(reply, "destination", "protocol");
    Kept(reply, "destination", "ip_version");
    Kept(reply, "destination", "origin_id");
    Kept(reply, "destination", "connection_state_type");
    Kept(reply, "destination", "connection_states");
    Kept(reply, "destination", "match_opposite_protocol");
  }

  lemma EndpointIsObject(m: Obj, key: string, ips: seq<string>, zone: string, port: Option<string>)
    requires EndpointOk(m, key, ips, zone, port)
    ensures key in m && m[key].Object?
  {
  }

  lemma EndpointKept(m: Obj, replaced: string, key: string, ips: seq<string>, zone: string, port: Option<string>)
    requires EndpointOk(m, key, ips, zone, port) && key != replaced && replaced in m && m[replaced].Object?
    ensures EndpointOk(Replace(m, replaced), key, ips, zone, port)
  {
    hide Is, Off, Unset;
  }

  /** A valid pair stays one under equality, as long as it is still literally enabled. */
  lemma PairAt(forward: Obj, reply: Obj, forward': Obj, reply': Obj, vip: string, sources: seq<string>)
    requires ValidPair(forward, reply, vip, sources) && Same(forward', forward) && Same(reply', reply) && Enabled(forward', reply')
    ensures ValidPair(forward', reply', vip, sources)
  {
    hide Same, Is, Off, Unset, Canon, Texts, StatesAre, EndpointOk, Enabled;
    AgreeAt(forward', forward, "action");
    AgreeAt(reply', reply, "action");
    AgreeAt(forward', forward, "protocol");
    AgreeAt(reply', reply, "protocol");
    AgreeAt(forward', forward, "ip_version");
    AgreeAt(reply', reply, "ip_version");
    OriginAt(forward, reply, forward', reply');
    AgreeAt(reply', reply, "connection_state_type");
    SameAt(reply', reply, "connection_states");
    StatesCanon(reply["connection_states"]);
    StatesCanon(reply'["connection_states"]);
    AgreeAt(forward', forward, "connection_state_type");
    AgreeAt(forward', forward, "connection_states");
    AgreeAt(forward', forward, "schedule");
    EndpointAt(forward', forward, "source", sources, REMOTE, None);
    EndpointAt(forward', forward, "destination", [vip], INTERNAL, Some("443"));
    EndpointAt(reply', reply, "source", [vip], INTERNAL, Some("443"));
    EndpointAt(reply', reply, "destination", sources, REMOTE, None);
    AgreeAt(forward', forward, "match_opposite_protocol");
    AgreeAt(reply', reply, "match_opposite_protocol");
  }

  lemma OriginAt(forward: Obj, reply: Obj, forward': Obj, reply': Obj)
    requires "_id" in forward && Is(reply, "origin_id", forward["_id"]) && Same(forward', forward) && Same(reply', reply)
    ensures "_id" in forward' && Is(reply', "origin_id", forward'["_id"])
  {
    hide Same, Canon;
    SameAt(forward', forward, "_id");
    SameAt(reply', reply, "origin_id");
  }

  // ---------------------------------------------------------------- what the check accepts

  /** A return is never one of the forwards: their connection states differ. */
  lemma ReturnIsNoForward(inv: Inventory, f: Forward, k: Json)
    requires Prepared(inv) && k in inv && PairReady(inv, f, k)
    ensures !IsForward(k)
  {
    hide EndpointOk, Off, Unset, IsTrue, StatesAre, IsReturn;
    forall j | 0 <= j < |FORWARDS| ensures k != Text(FORWARDS[j].ident) {
      assert HasPair(inv, FORWARDS[j]);
      var r :| r in inv && PairReady(inv, FORWARDS[j], r);
      NotBoth(inv[k]);
    }
  }

  lemma NotBoth(m: Obj)
    ensures !(Is(m, "connection_state_type", Text("ALL")) && Is(m, "connection_state_type", Text("RESPOND_ONLY")))
  {
    assert "ALL" != "RESPOND_ONLY";
  }

  /** What `verify` demands of one forward and its return, in the second snapshot. */
  predicate PairChecked(before: Inventory, after: Inventory, f: Forward, k: Json)
    requires after.Keys == before.Keys && k in before && PairReady(before, f, k)
  {
    var id := Text(f.ident);
    EndpointIsObject(before[id], "source", OLD, REMOTE, None);
    EndpointIsObject(before[k], "destination", OLD, REMOTE, None);
    && |ReplyIds(after, f.ident)| == 1 && ValidPair(after[id], after[k], f.vip, NEW)
    && Same(after[id], Replace(before[id], "source")) && Same(after[k], Replace(before[k], "destination"))
  }

  lemma ReplyAt(a: Obj, b: Obj, ident: string)
    requires Same(a, b)
    ensures IsReply(a, ident) <==> IsReply(b, ident)
  {
    hide Same;
    SameAt(a, b, "origin_id");
  }

  lemma ExpectedReply(inv: Inventory, k: Json, ident: string)
    requires Prepared(inv) && k in inv
    ensures IsReply(Expected(inv, k), ident) <==> IsReply(inv[k], ident)
  {
    hide Prepared, IsForward, IsAnyReturn, Replace;
    Editable(inv, k);
    if IsForward(k) {
      Kept(inv[k], "source", "origin_id");
    } else if IsAnyReturn(inv, k) {
      Kept(inv[k], "destination", "origin_id");
    }
  }

  lemma RepliesKept(before: Inventory, after: Inventory, ident: string)
    requires Prepared(before) && OnlyDelta(before, after)
    ensures ReplyIds(after, ident) == ReplyIds(before, ident)
  {
    hide Prepared, Same, Expected;
    forall k | k in before ensures IsReply(after[k], ident) <==> IsReply(before[k], ident) {
      ReplyAt(after[k], Expected(before, k), ident);
      ExpectedReply(before, k, ident);
    }
  }

  lemma ExpectedPair(before: Inventory, i: nat, k: Json)
    requires Prepared(before) && k in before && i < |FORWARDS| && PairReady(before, FORWARDS[i], k)
    ensures var id := Text(FORWARDS[i].ident);
            && "source" in before[id] && before[id]["source"].Object? && Expected(before, id) == Replace(before[id], "source")
            && "destination" in before[k] && before[k]["destination"].Object? && Expected(before, k) == Replace(before[k], "destination")
  {
    hide Prepared, Same, Replace, ValidPair, EndpointOk;
    var id := Text(FORWARDS[i].ident);
    ReturnIsNoForward(before, FORWARDS[i], k);
    assert IsForward(id) && IsAnyReturn(before, k);
    Editable(before, id);
    Editable(before, k);
  }

  lemma PairFollows(before: Inventory, after: Inventory, i: nat, k: Json)
    requires Prepared(before) && OnlyDelta(before, after) && StillEnabled(before, after)
    requires k in before && i < |FORWARDS| && PairReady(before, FORWARDS[i], k)
    ensures PairChecked(before, after, FORWARDS[i], k)
  {
    hide Prepared, Same, Replace, ValidPair, EndpointOk, Expected, Enabled;
    var id, vip := Text(FORWARDS[i].ident), FORWARDS[i].vip;
    ExpectedPair(before, i, k);
    RepliesKept(before, after, FORWARDS[i].ident);
    PairReplaced(before[id], before[k], vip);
    assert Enabled(after[id], after[k]);
    PairAt(Expected(before, id), Expected(before, k), after[id], after[k], vip, NEW);
  }

  lemma PairImplies(before: Inventory, after: Inventory, i: nat, k: Json)
    requires Prepared(before) && after.Keys == before.Keys
    requires k in before && i < |FORWARDS| && PairReady(before, FORWARDS[i], k) && PairChecked(before, after, FORWARDS[i], k)
    ensures var id := Text(FORWARDS[i].ident);
            Same(after[id], Expected(before, id)) && Same(after[k], Expected(before, k)) && Enabled(after[id], after[k])
  {
    hide Prepared, Same, Replace, EndpointOk, Expected, Is, Off, Unset;
    ExpectedPair(before, i, k);
  }

  method Prepare(snapshot: Json) returns (changes: Option<seq<Obj>>)
    ensures changes.Some? <==> Objects(snapshot).Some? && Prepared(Objects(snapshot).value)
    ensures changes.Some? ==>
              var inv := Objects(snapshot).value;
              && |changes.value| == |FORWARDS|
              && forall i | 0 <= i < |FORWARDS| ::
                   Text(FORWARDS[i].ident) in inv && changes.value[i] == Expected(inv, Text(FORWARDS[i].ident))
  {
    hide ValidPair, EndpointOk, Expected, Replace, Objects;
    var before := ReadObjects(snapshot);
    if before.None? { return None; }
    var inv, proposed: seq<Obj> := before.value, [];
    for i := 0 to |FORWARDS|
      invariant |proposed| == i
      invariant forall j | 0 <= j < i :: HasPair(inv, FORWARDS[j])
      invariant forall j | 0 <= j < i ::
                  var id := Text(FORWARDS[j].ident);
                  id in inv && "source" in inv[id] && inv[id]["source"].Object? && proposed[j] == Replace(inv[id], "source")
    {
      var id := Text(FORWARDS[i].ident);
      if id !in inv {
        assert !HasPair(inv, FORWARDS[i]);
        return None;
      }
      var replies := ReplyIds(inv, FORWARDS[i].ident);
      if |replies| != 1 {
        assert !HasPair(inv, FORWARDS[i]);
        return None;
      }
      var k :| k in replies;
      Only(replies, k);
      if !ValidPair(inv[id], inv[k], FORWARDS[i].vip, OLD) {
        assert forall r | r in inv && PairReady(inv, FORWARDS[i], r) :: r in replies && r == k;
        assert !HasPair(inv, FORWARDS[i]);
        return None;
      }
      EndpointsOf(inv[id], inv[k], FORWARDS[i].vip, OLD);
      assert PairReady(inv, FORWARDS[i], k);
      proposed := proposed + [Replace(inv[id], "source")];
    }
    forall i | 0 <= i < |FORWARDS| ensures proposed[i] == Expected(inv, Text(FORWARDS[i].ident)) {
      assert HasPair(inv, FORWARDS[i]);
      var k :| k in inv && PairReady(inv, FORWARDS[i], k);
      ExpectedPair(inv, i, k);
    }
    changes := Some(proposed);
  }

  lemma Only(s: set<Json>, k: Json)
    requires |s| == 1 && k in s
    ensures s == {k}
  {
    assert |s - {k}| == 0;
  }

  lemma EndpointsOf(forward: Obj, reply: Obj, vip: string, sources: seq<string>)
    requires ValidPair(forward, reply, vip, sources)
    ensures "source" in forward && forward["source"].Object? && "destination" in reply && reply["destination"].Object?
  {
    hide Is, Off, Unset;
  }

  /** Exactly what `verify` accepts. */
  predicate Accepted(beforeSnapshot: Json, afterSnapshot: Json) {
    && Objects(beforeSnapshot).Some? && Objects(afterSnapshot).Some?
    && var before, after := Objects(beforeSnapshot).value, Objects(afterSnapshot).value;
       Prepared(before) && OnlyDelta(before, after) && StillEnabled(before, after)
  }

  /** The forward of index `j`, its return `k`, and what has been found of them. */
  predicate Passed(before: Inventory, after: Inventory, j: nat, k: Json)
    requires Prepared(before) && after.Keys == before.Keys && j < |FORWARDS| && k in before
  {
    var id := Text(FORWARDS[j].ident);
    && id in before
    && Same(after[id], Expected(before, id)) && Same(after[k], Expected(before, k)) && Enabled(after[id], after[k])
  }

  /** One round of the loop of `verify`. */
  method VerifyPair(before: Inventory, after: Inventory, i: nat, proposed: Obj) returns (ok: bool, k: Json)
    requires Prepared(before) && after.Keys == before.Keys && i < |FORWARDS|
    requires Text(FORWARDS[i].ident) in before && proposed == Expected(before, Text(FORWARDS[i].ident))
    ensures k in before && PairReady(before, FORWARDS[i], k)
    ensures ok ==> Passed(before, after, i, k)
    ensures !ok ==> !(OnlyDelta(before, after) && StillEnabled(before, after))
  {
    hide ValidPair, EndpointOk, Expected, Replace, Same, Enabled, OnlyDelta, StillEnabled;
    var id := Text(FORWARDS[i].ident);
    assert HasPair(before, FORWARDS[i]);
    ghost var r :| r in before && PairReady(before, FORWARDS[i], r);
    var replies := ReplyIds(before, FORWARDS[i].ident);
    assert r in replies;
    k :| k in replies;
    assert k == r;
    ExpectedPair(before, i, k);
    ok := && |ReplyIds(after, FORWARDS[i].ident)| == 1
          && ValidPair(after[id], after[k], FORWARDS[i].vip, NEW)
          && Same(after[id], proposed)
          && Same(after[k], Replace(before[k], "destination"));
    assert ok == PairChecked(before, after, FORWARDS[i], k);
    if ok {
      PairImplies(before, after, i, k);
    } else if OnlyDelta(before, after) && StillEnabled(before, after) {
      PairFollows(before, after, i, k);
    }
  }

  /** The forwards and their returns; `changed` is both. */
  method VerifyPairs(before: Inventory, after: Inventory, proposed: seq<Obj>) returns (ok: bool, changed: set<Json>, ghost replied: seq<Json>)
    requires Prepared(before) && after.Keys == before.Keys && |proposed| == |FORWARDS|
    requires forall i | 0 <= i < |FORWARDS| ::
               Text(FORWARDS[i].ident) in before && proposed[i] == Expected(before, Text(FORWARDS[i].ident))
    ensures ok ==> && AllReturns(before, replied) && changed == Forwards() + Members(replied)
                   && forall j | 0 <= j < |FORWARDS| :: Passed(before, after, j, replied[j])
    ensures !ok ==> !(OnlyDelta(before, after) && StillEnabled(before, after))
  {
    hide ValidPair, EndpointOk, Expected, Replace, Same, Enabled, Prepared, OnlyDelta, StillEnabled, Passed, PairReady;
    changed, replied := set i | 0 <= i < |FORWARDS| :: Text(FORWARDS[i].ident), [];
    for i := 0 to |FORWARDS|
      invariant |replied| == i && changed == Forwards() + Members(replied)
      invariant forall j | 0 <= j < i :: replied[j] in before && PairReady(before, FORWARDS[j], replied[j]) && Passed(before, after, j, replied[j])
    {
      var pairOk, k := VerifyPair(before, after, i, proposed[i]);
      if !pairOk { return false, changed, replied; }
      changed, replied := changed + {k}, replied + [k];
    }
    ok := true;
  }

  method VerifyRest(before: Inventory, after: Inventory, changed: set<Json>) returns (ok: bool)
    requires Prepared(before) && after.Keys == before.Keys
    requires forall k | k in before :: k in changed <==> IsForward(k) || IsAnyReturn(before, k)
    ensures ok ==> forall k | k in before && k !in changed :: Same(after[k], Expected(before, k))
    ensures !ok ==> !OnlyDelta(before, after)
  {
    hide Expected, Same, Prepared, OnlyDelta, IsForward, IsAnyReturn;
    var rest := before.Keys - changed;
    while rest != {}
      invariant rest <= before.Keys - changed
      invariant forall k | k in before && k !in changed && k !in rest :: Same(after[k], Expected(before, k))
      decreases |rest|
    {
      var k :| k in rest;
      Untouched(before, k);
      SameBack(before[k], after[k]);
      if !Same(before[k], after[k]) {
        OnlyDeltaAt(before, after, k);
        return false;
      }
      rest := rest - {k};
    }
    ok := true;
  }

  method Verify(beforeSnapshot: Json, afterSnapshot: Json) returns (ok: bool)
    ensures ok <==> Accepted(beforeSnapshot, afterSnapshot)
  {
    hide ValidPair, Expected, Same, Prepared, PairReady, OnlyDelta, StillEnabled, Objects, IsForward, IsAnyReturn, IsReturn, Passed;
    var first := ReadObjects(beforeSnapshot);
    if first.None? { return false; }
    var second := ReadObjects(afterSnapshot);
    if second.None? { return false; }
    var before, after := first.value, second.value;
    if before.Keys != after.Keys {
      if Prepared(before) { OnlyDeltaKeys(before, after); }
      return false;
    }
    var proposed := Prepare(beforeSnapshot);
    if proposed.None? { return false; }
    var pairsOk, changed, replied := VerifyPairs(before, after, proposed.value);
    if !pairsOk { return false; }
    ChangedIs(before, replied);
    ok := VerifyRest(before, after, changed);
    if ok { AllPassed(before, after, replied); }
  }

  function Members(ks: seq<Json>): set<Json> { set k | k in ks }

  function Forwards(): set<Json> { set i | 0 <= i < |FORWARDS| :: Text(FORWARDS[i].ident) }

  lemma OnlyDeltaKeys(before: Inventory, after: Inventory)
    requires Prepared(before) && before.Keys != after.Keys
    ensures !OnlyDelta(before, after)
  {
  }

  lemma OnlyDeltaAt(before: Inventory, after: Inventory, k: Json)
    requires Prepared(before) && k in before && after.Keys == before.Keys && !Same(after[k], Expected(before, k))
    ensures !OnlyDelta(before, after)
  {
  }

  lemma SameBack(a: Obj, b: Obj)
    ensures Same(a, b) <==> Same(b, a)
  {
  }

  lemma Untouched(before: Inventory, k: Json)
    requires Prepared(before) && k in before && !IsForward(k) && !IsAnyReturn(before, k)
    ensures Expected(before, k) == before[k]
  {
  }

  predicate AllReturns(before: Inventory, replied: seq<Json>) {
    |replied| == |FORWARDS| &&
    forall j | 0 <= j < |FORWARDS| :: replied[j] in before && PairReady(before, FORWARDS[j], replied[j])
  }

  lemma ChangedIs(before: Inventory, replied: seq<Json>)
    requires AllReturns(before, replied)
    ensures forall k | k in before :: k in Forwards() + Members(replied) <==> IsForward(k) || IsAnyReturn(before, k)
  {
    hide ValidPair;
    forall k | k in before ensures k in replied <==> IsAnyReturn(before, k) {
      if k in replied {
        var j :| 0 <= j < |replied| && replied[j] == k;
        assert IsReturn(before, FORWARDS[j].ident, k);
      }
      if IsAnyReturn(before, k) {
        var j :| 0 <= j < |FORWARDS| && IsReturn(before, FORWARDS[j].ident, k);
        assert k in ReplyIds(before, FORWARDS[j].ident) && replied[j] in ReplyIds(before, FORWARDS[j].ident);
        assert replied[j] == k;
      }
    }
  }

  lemma AllPassed(before: Inventory, after: Inventory, replied: seq<Json>)
    requires Prepared(before) && after.Keys == before.Keys && AllReturns(before, replied)
    requires forall j | 0 <= j < |FORWARDS| :: Passed(before, after, j, replied[j])
    requires forall k | k in before && k !in Forwards() + Members(replied) :: Same(after[k], Expected(before, k))
    ensures OnlyDelta(before, after) && StillEnabled(before, after)
  {
    hide ValidPair, Same, Expected, Enabled, Prepared;
    forall k | k in before ensures Same(after[k], Expected(before, k)) {
      if k in Forwards() {
        var j :| 0 <= j < |FORWARDS| && k == Text(FORWARDS[j].ident);
        assert Passed(before, after, j, replied[j]);
      } else if k in replied {
        var j :| 0 <= j < |replied| && replied[j] == k;
        assert Passed(before, after, j, replied[j]);
      }
    }
    forall j, k | 0 <= j < |FORWARDS| && Text(FORWARDS[j].ident) in before && IsReturn(before, FORWARDS[j].ident, k) && k in before
      ensures Enabled(after[Text(FORWARDS[j].ident)], after[k])
    {
      assert replied[j] in ReplyIds(before, FORWARDS[j].ident);
      assert k == replied[j] && Passed(before, after, j, replied[j]);
    }
  }

  predicate SamePolicies(a: Json, b: Json) {
    && PolicyList(a).Some? && PolicyList(b).Some?
    && multiset(PolicyList(a).value) == multiset(PolicyList(b).value)
  }

  /** Nothing depends on the order in which a snapshot lists its policies. */
  lemma AcceptedInAnyOrder(before: Json, after: Json, before': Json, after': Json)
    requires SamePolicies(before, before') && SamePolicies(after, after')
    ensures Accepted(before, after) <==> Accepted(before', after')
  {
    CollectInAnyOrder(PolicyList(before).value, PolicyList(before').value);
    CollectInAnyOrder(PolicyList(after).value, PolicyList(after').value);
    hide Collect, Prepared, OnlyDelta, StillEnabled;
  }
}
